/**
 The order strings the enclave builds and signs for Binance and OKX, and the gateway's reassembly of the signed query.
 */
module Orders {
  import opened Wrappers
  import opened Lex
  import opened Listing
  import opened Text
  import opened Unicode
  import J = Json

  const AMPERSAND: byte := 38
  const EQUALS: byte := 61

  datatype OrderRequest = OrderRequest(
    symbol: Bytes,
    side: Bytes,
    qty: Bytes,
    ordType: Bytes,
    price: Option<Bytes>,
    reduceOnly: bool,
    clientOrderId: Option<Bytes>)

  datatype OrderError =
    | IllegalSymbol
    | IllegalQty
    | BadSide
    | UnsupportedType
    | UnknownType
    | PriceMissing
    | IllegalPrice
    | PriceOnMarket
    | IllegalClientId

  /** Letters, digits, `-`, `_` and `.`; never empty. The Binance and OKX builders use the same alphabet. */
  predicate IsSafeValue(v: Bytes) {
    |v| > 0 && forall i :: 0 <= i < |v| ==> IsAlnum(v[i]) || v[i] in {45, 95, 46}
  }

  const BUY: Bytes := Ascii("buy")
  const SELL: Bytes := Ascii("sell")
  const MARKET: Bytes := Ascii("market")
  const LIMIT: Bytes := Ascii("limit")

  function HeadFault(req: OrderRequest): Option<OrderError> {
    if !IsSafeValue(req.symbol) then Some(IllegalSymbol)
    else if !IsSafeValue(req.qty) then Some(IllegalQty)
    else if req.side != BUY && req.side != SELL then Some(BadSide)
    else if req.ordType in {Ascii("fok"), Ascii("ioc"), Ascii("post_only")} then Some(UnsupportedType)
    else if req.ordType != MARKET && req.ordType != LIMIT then Some(UnknownType)
    else None
  }

  function PriceFault(req: OrderRequest): Option<OrderError> {
    if req.ordType == LIMIT && req.price.None? then Some(PriceMissing)
    else if req.ordType == LIMIT && !IsSafeValue(req.price.value) then Some(IllegalPrice)
    else if req.ordType != LIMIT && req.price.Some? then Some(PriceOnMarket)
    else None
  }

  function IdFault(req: OrderRequest): Option<OrderError> {
    if req.clientOrderId.Some? && !IsSafeValue(req.clientOrderId.value) then Some(IllegalClientId) else None
  }

  /** The first reason, in the builders' order, to refuse a request. */
  function OrderFault(req: OrderRequest): Option<OrderError> {
    if HeadFault(req).Some? then HeadFault(req)
    else if PriceFault(req).Some? then PriceFault(req)
    else IdFault(req)
  }

  // ---------------------------------------------------------------- form encoding

  datatype Param = Param(key: Bytes, value: Bytes)

  function EncodeParam(p: Param): Bytes {
    p.key + [EQUALS] + p.value
  }

  function FormEncode(params: seq<Param>): Bytes {
    if |params| == 0 then []
    else if |params| == 1 then EncodeParam(params[0])
    else EncodeParam(params[0]) + [AMPERSAND] + FormEncode(params[1..])
  }

  /** A venue's reading of one parameter: key up to the first equals sign. */
  function ReadParam(s: Bytes): Param {
    var k := Find(s, EQUALS);
    if k == |s| then Param(s, []) else Param(s[..k], s[k + 1..])
  }

  /** A venue's reading of a query: split on ampersands. */
  function ReadForm(s: Bytes): seq<Param>
    decreases |s|
  {
    var k := Find(s, AMPERSAND);
    if k == |s| then [ReadParam(s)] else [ReadParam(s[..k])] + ReadForm(s[k + 1..])
  }

  predicate CleanParam(p: Param) {
    EQUALS !in p.key && AMPERSAND !in p.key && AMPERSAND !in p.value
  }

  predicate UnsafeInCanonical(b: byte) {
    b == 32 || b == 10 || b == 13 || b == 0
  }

  /** No space, line break or zero byte. */
  predicate Unbroken(s: Bytes) {
    forall i :: 0 <= i < |s| ==> !UnsafeInCanonical(s[i])
  }

  predicate PlainParam(p: Param) {
    CleanParam(p) && Unbroken(p.key) && Unbroken(p.value)
  }

  lemma ParamReadsBack(p: Param)
    requires CleanParam(p)
    ensures ReadParam(EncodeParam(p)) == p && AMPERSAND !in EncodeParam(p)
  {
    var s := EncodeParam(p);
    FindIs(s, EQUALS, |p.key|);
    assert s[..|p.key|] == p.key && s[|p.key| + 1..] == p.value;
  }

  /** Splitting an encoded query on its separators recovers exactly its parameters. */
  lemma {:induction false} FormReadsBack(params: seq<Param>)
    requires |params| > 0 && forall i :: 0 <= i < |params| ==> CleanParam(params[i])
    ensures ReadForm(FormEncode(params)) == params
  {
    hide CleanParam, EncodeParam, ReadParam;
    var s := FormEncode(params);
    var first := EncodeParam(params[0]);
    ParamReadsBack(params[0]);
    if |params| == 1 {
      FindIs(s, AMPERSAND, |s|);
      assert params == [params[0]];
    } else {
      assert s == first + [AMPERSAND] + FormEncode(params[1..]);
      FindIs(s, AMPERSAND, |first|);
      assert s[..|first|] == first && s[|first| + 1..] == FormEncode(params[1..]);
      FormReadsBack(params[1..]);
      assert params == [params[0]] + params[1..];
    }
  }

  // ---------------------------------------------------------------- Binance

  function BinanceHead(req: OrderRequest): seq<Param> {
    [Param(Ascii("symbol"), req.symbol),
     Param(Ascii("side"), if req.side == BUY then Ascii("BUY") else Ascii("SELL")),
     Param(Ascii("type"), if req.ordType == MARKET then Ascii("MARKET") else Ascii("LIMIT")),
     Param(Ascii("quantity"), req.qty)]
  }

  function BinancePrice(req: OrderRequest): seq<Param> {
    if req.price.Some? then [Param(Ascii("price"), req.price.value), Param(Ascii("timeInForce"), Ascii("GTC"))] else []
  }

  function BinanceTail(req: OrderRequest): seq<Param> {
    (if req.reduceOnly then [Param(Ascii("reduceOnly"), Ascii("true"))] else [])
    + (if req.clientOrderId.Some? then [Param(Ascii("newClientOrderId"), req.clientOrderId.value)] else [])
  }

  /** The parameters a Binance order stands for, in their fixed order. */
  function BinanceParams(req: OrderRequest): (params: seq<Param>)
    ensures |params| >= 4
  {
    BinanceHead(req) + BinancePrice(req) + BinanceTail(req)
  }

  lemma SafeValueIsClean(v: Bytes)
    requires IsSafeValue(v)
    ensures AMPERSAND !in v && EQUALS !in v && Unbroken(v)
  {
  }

  lemma LiteralIsClean(s: string)
    requires forall i :: 0 <= i < |s| ==> 'A' <= s[i] <= 'z'
    ensures AMPERSAND !in Ascii(s) && EQUALS !in Ascii(s) && Unbroken(Ascii(s))
  {
  }

  lemma PlainLiteralParam(key: string, value: string)
    requires forall i :: 0 <= i < |key| ==> 'A' <= key[i] <= 'z'
    requires forall i :: 0 <= i < |value| ==> 'A' <= value[i] <= 'z'
    ensures PlainParam(Param(Ascii(key), Ascii(value)))
  {
    hide Unbroken, Ascii;
    LiteralIsClean(key);
    LiteralIsClean(value);
  }

  lemma PlainValueParam(key: string, value: Bytes)
    requires forall i :: 0 <= i < |key| ==> 'A' <= key[i] <= 'z'
    requires IsSafeValue(value)
    ensures PlainParam(Param(Ascii(key), value))
  {
    hide Unbroken, Ascii;
    LiteralIsClean(key);
    SafeValueIsClean(value);
  }

  predicate AllPlain(params: seq<Param>) {
    forall i :: 0 <= i < |params| ==> PlainParam(params[i])
  }

  lemma HeadPlain(req: OrderRequest)
    requires OrderFault(req).None?
    ensures AllPlain(BinanceHead(req))
  {
    hide PlainParam, IsSafeValue;
    PlainValueParam("symbol", req.symbol);
    PlainLiteralParam("side", if req.side == BUY then "BUY" else "SELL");
    PlainLiteralParam("type", if req.ordType == MARKET then "MARKET" else "LIMIT");
    PlainValueParam("quantity", req.qty);
  }

  lemma TailPlain(req: OrderRequest)
    requires OrderFault(req).None?
    ensures AllPlain(BinancePrice(req) + BinanceTail(req))
  {
    hide PlainParam, IsSafeValue;
    if req.price.Some? {
      PlainValueParam("price", req.price.value);
      PlainLiteralParam("timeInForce", "GTC");
    }
    PlainLiteralParam("reduceOnly", "true");
    if req.clientOrderId.Some? {
      PlainValueParam("newClientOrderId", req.clientOrderId.value);
    }
  }

  lemma BinanceParamsPlain(req: OrderRequest)
    requires OrderFault(req).None?
    ensures AllPlain(BinanceParams(req))
  {
    hide PlainParam, OrderFault, BinanceHead, BinancePrice, BinanceTail;
    HeadPlain(req);
    TailPlain(req);
    assert BinanceParams(req) == BinanceHead(req) + (BinancePrice(req) + BinanceTail(req));
  }

  /** Different accepted requests stand for different parameters. */
  lemma BinanceParamsInjective(a: OrderRequest, b: OrderRequest)
    requires OrderFault(a).None? && OrderFault(b).None? && BinanceParams(a) == BinanceParams(b)
    ensures a == b
  {
    HeadInjective(a, b);
    PriceFollowsType(a);
    PriceFollowsType(b);
    hide OrderFault, HeadFault;
    ConcatAssoc(BinanceHead(a), BinancePrice(a), BinanceTail(a));
    ConcatAssoc(BinanceHead(b), BinancePrice(b), BinanceTail(b));
    hide BinancePrice, BinanceTail, Ascii;
    SameParts(BinanceHead(a), BinancePrice(a) + BinanceTail(a), BinanceHead(b), BinancePrice(b) + BinanceTail(b));
    hide BinanceHead;
    PriceInjective(a, b);
    TailInjective(a, b, BinanceTail(a), BinanceTail(b));
  }

  lemma PriceInjective(a: OrderRequest, b: OrderRequest)
    requires BinancePrice(a) + BinanceTail(a) == BinancePrice(b) + BinanceTail(b) && (a.price.Some? <==> b.price.Some?)
    ensures a.price == b.price && BinanceTail(a) == BinanceTail(b)
  {
    hide BinanceTail, Ascii;
    SameParts(BinancePrice(a), BinanceTail(a), BinancePrice(b), BinanceTail(b));
    if a.price.Some? {
      assert BinancePrice(a)[0] == BinancePrice(b)[0];
    }
  }

  lemma HeadInjective(a: OrderRequest, b: OrderRequest)
    requires HeadFault(a).None? && HeadFault(b).None?
    ensures BinanceHead(a) == BinanceHead(b) <==>
      a.symbol == b.symbol && a.side == b.side && a.ordType == b.ordType && a.qty == b.qty
  {
    HeadDecided(a);
    HeadDecided(b);
    AsciiInjective("BUY", "SELL");
    AsciiInjective("MARKET", "LIMIT");
    hide HeadFault, IsSafeValue, Ascii;
    var p, q := BinanceHead(a), BinanceHead(b);
    if p == q {
      assert p[0] == q[0] && p[1] == q[1] && p[2] == q[2] && p[3] == q[3];
    }
  }

  lemma PriceFollowsType(req: OrderRequest)
    requires OrderFault(req).None?
    ensures req.price.Some? <==> req.ordType == LIMIT
  {
    hide HeadFault, IdFault, IsSafeValue;
  }

  lemma TailInjective(a: OrderRequest, b: OrderRequest, p: seq<Param>, q: seq<Param>)
    requires p == BinanceTail(a) && q == BinanceTail(b) && p == q
    ensures a.reduceOnly == b.reduceOnly && a.clientOrderId == b.clientOrderId
  {
    AsciiInjective("reduceOnly", "newClientOrderId");
    if |p| > 0 {
      assert p[0] == q[0];
    }
    if |p| > 1 {
      assert p[1] == q[1];
    }
  }

  lemma {:induction false} FormAppend(params: seq<Param>, p: Param)
    requires |params| > 0
    ensures FormEncode(params + [p]) == FormEncode(params) + [AMPERSAND] + EncodeParam(p)
  {
    hide EncodeParam;
    var all := params + [p];
    if |params| == 1 {
      assert all[1..] == [p];
    } else {
      assert all[1..] == params[1..] + [p];
      FormAppend(params[1..], p);
      var head := EncodeParam(params[0]) + [AMPERSAND];
      ConcatAssoc(head, FormEncode(params[1..]), [AMPERSAND]);
      ConcatAssoc(head, FormEncode(params[1..]) + [AMPERSAND], EncodeParam(p));
    }
  }

  /** Refuses exactly the faulty requests; otherwise emits the encoding of the request's parameters. */
  method BuildBinanceOrderQuery(req: OrderRequest) returns (r: Result<Bytes, OrderError>)
    ensures r == if OrderFault(req).Some? then Err(OrderFault(req).value) else Ok(FormEncode(BinanceParams(req)))
  {
    hide FormEncode, HeadFault, PriceFault, IdFault, BinanceHead, BinancePrice, BinanceTail;
    if HeadFault(req).Some? {
      return Err(HeadFault(req).value);
    }
    HeadDecided(req);
    var out := PushHead(req);
    r := PushPrice(out, req);
    if r.Ok? {
      r := PushTail(r.value, BinanceHead(req) + BinancePrice(req), req);
    }
  }

  method PushHead(req: OrderRequest) returns (out: Bytes)
    ensures |BinanceHead(req)| == 4 && out == FormEncode(BinanceHead(req))
  {
    hide FormEncode, EncodeParam, Ascii;
    ghost var params := [Param(Ascii("symbol"), req.symbol)];
    out := EncodeParam(Param(Ascii("symbol"), req.symbol));
    OneParam(params[0]);
    out, params := PushParam(out, params, Ascii("side"), if req.side == BUY then Ascii("BUY") else Ascii("SELL"));
    var ordType := if req.ordType == MARKET then Ascii("MARKET") else Ascii("LIMIT");
    out, params := PushParam(out, params, Ascii("type"), ordType);
    out, params := PushParam(out, params, Ascii("quantity"), req.qty);
    assert params == BinanceHead(req);
  }

  method PushPrice(out: Bytes, req: OrderRequest) returns (r: Result<Bytes, OrderError>)
    requires |BinanceHead(req)| == 4 && out == FormEncode(BinanceHead(req))
    ensures r == if PriceFault(req).Some? then Err(PriceFault(req).value)
                 else Ok(FormEncode(BinanceHead(req) + BinancePrice(req)))
  {
    hide FormEncode, EncodeParam, IsSafeValue, Ascii, BinanceHead;
    ghost var params := BinanceHead(req);
    var next := out;
    if req.ordType == LIMIT {
      if req.price.None? {
        return Err(PriceMissing);
      }
      if !IsSafeValue(req.price.value) {
        return Err(IllegalPrice);
      }
      next, params := PushParam(next, params, Ascii("price"), req.price.value);
      next, params := PushParam(next, params, Ascii("timeInForce"), Ascii("GTC"));
    } else if req.price.Some? {
      return Err(PriceOnMarket);
    }
    assert params == BinanceHead(req) + BinancePrice(req);
    r := Ok(next);
  }

  method PushTail(out: Bytes, ghost before: seq<Param>, req: OrderRequest) returns (r: Result<Bytes, OrderError>)
    requires |before| > 0 && out == FormEncode(before)
    ensures r == if IdFault(req).Some? then Err(IdFault(req).value) else Ok(FormEncode(before + BinanceTail(req)))
  {
    hide FormEncode, EncodeParam, IsSafeValue, Ascii;
    ghost var params := before;
    var next := out;
    if req.reduceOnly {
      next, params := PushParam(next, params, Ascii("reduceOnly"), Ascii("true"));
    }
    if req.clientOrderId.Some? {
      if !IsSafeValue(req.clientOrderId.value) {
        return Err(IllegalClientId);
      }
      next, params := PushParam(next, params, Ascii("newClientOrderId"), req.clientOrderId.value);
    }
    assert params == before + BinanceTail(req);
    r := Ok(next);
  }

  lemma HeadDecided(req: OrderRequest)
    requires HeadFault(req).None?
    ensures IsSafeValue(req.symbol) && IsSafeValue(req.qty)
    ensures (req.side == BUY || req.side == SELL) && (req.ordType == MARKET || req.ordType == LIMIT)
    ensures MARKET != LIMIT
  {
    MarketIsNotLimit();
  }

  lemma MarketIsNotLimit()
    ensures MARKET != LIMIT
  {
    AsciiInjective("market", "limit");
  }

  lemma OneParam(p: Param)
    ensures FormEncode([p]) == EncodeParam(p)
  {
  }

  method PushParam(out: Bytes, ghost params: seq<Param>, key: Bytes, value: Bytes)
    returns (out': Bytes, ghost params': seq<Param>)
    requires |params| > 0 && out == FormEncode(params)
    ensures params' == params + [Param(key, value)] && out' == FormEncode(params')
  {
    FormAppend(params, Param(key, value));
    out' := out + [AMPERSAND] + EncodeParam(Param(key, value));
    params' := params + [Param(key, value)];
  }

  /** A venue that splits an accepted query reads the request's parameters, and no two requests share a query. */
  lemma BinanceQueryIsUnambiguous(a: OrderRequest, b: OrderRequest)
    requires OrderFault(a).None? && OrderFault(b).None?
    ensures ReadForm(FormEncode(BinanceParams(a))) == BinanceParams(a)
    ensures FormEncode(BinanceParams(a)) == FormEncode(BinanceParams(b)) <==> a == b
  {
    BinanceParamsPlain(a);
    BinanceParamsPlain(b);
    hide OrderFault, FormEncode, CleanParam, Unbroken;
    FormReadsBack(BinanceParams(a));
    FormReadsBack(BinanceParams(b));
    if BinanceParams(a) == BinanceParams(b) {
      BinanceParamsInjective(a, b);
    }
  }

  // ---------------------------------------------------------------- OKX

  /** ASCII bytes read as text. */
  function ToStr(v: Bytes): (s: Str)
    requires forall i :: 0 <= i < |v| ==> v[i] < 128
    ensures |s| == |v| && forall i :: 0 <= i < |v| ==> s[i] == v[i]
  {
    seq(|v|, i requires 0 <= i < |v| => v[i])
  }

  /** No byte that JSON would escape. */
  predicate Plain(v: Bytes) {
    forall i :: 0 <= i < |v| ==> 32 <= v[i] < 128 && v[i] != 34 && v[i] != 92
  }

  lemma SafeIsPlain(v: Bytes)
    requires IsSafeValue(v)
    ensures Plain(v)
  {
  }

  lemma LettersArePlain(s: string)
    requires forall i :: 0 <= i < |s| ==> 'A' <= s[i] <= 'z' && s[i] != '\\'
    ensures Plain(Ascii(s))
  {
  }

  lemma {:induction false} PlainNeedsNoEscape(v: Bytes)
    requires Plain(v)
    ensures J.EscapeAll(ToStr(v)) == v
  {
    if |v| > 0 {
      PlainNeedsNoEscape(v[1..]);
      assert ToStr(v)[1..] == ToStr(v[1..]);
      assert J.Escape(ToStr(v)[0]) == [v[0]];
      assert v == [v[0]] + v[1..];
    }
  }

  function TextField(key: string, v: Bytes): J.Field
    requires Plain(v)
  {
    J.Field(ToStr(Ascii(key)), J.String(ToStr(v)))
  }

  /** The bytes `"key":"value"`. */
  function Member(key: string, v: Bytes): Bytes
    requires forall i :: 0 <= i < |key| ==> key[i] as int < 128
  {
    [J.QUOTE] + Ascii(key) + [J.QUOTE] + [J.COLON] + ([J.QUOTE] + v + [J.QUOTE])
  }

  lemma MemberPrints(key: string, v: Bytes)
    requires forall i :: 0 <= i < |key| ==> 'A' <= key[i] <= 'z' && key[i] != '\\'
    requires Plain(v)
    ensures J.PrintField(TextField(key, v)) == Member(key, v)
  {
    LettersArePlain(key);
    PlainNeedsNoEscape(Ascii(key));
    PlainNeedsNoEscape(v);
    hide J.EscapeAll;
  }

  const REDUCE_ONLY: Bytes := [J.QUOTE] + Ascii("reduceOnly") + [J.QUOTE] + [J.COLON] + J.TRUE

  const REDUCE_ONLY_FIELD := J.Field(ToStr(Ascii("reduceOnly")), J.Bool(true))

  lemma ReduceOnlyPrints()
    ensures J.PrintField(REDUCE_ONLY_FIELD) == REDUCE_ONLY
  {
    LettersArePlain("reduceOnly");
    PlainNeedsNoEscape(Ascii("reduceOnly"));
    hide J.EscapeAll;
  }

  /** Every value of an accepted request can stand between quotes as it is. */
  predicate Quotable(req: OrderRequest) {
    && Plain(req.symbol) && Plain(req.side) && Plain(req.ordType) && Plain(req.qty)
    && (req.price.Some? ==> Plain(req.price.value))
    && (req.clientOrderId.Some? ==> Plain(req.clientOrderId.value))
  }

  lemma AcceptedIsQuotable(req: OrderRequest)
    requires OrderFault(req).None?
    ensures Quotable(req)
  {
    hide IsSafeValue, Plain, Ascii;
    SafeIsPlain(req.symbol);
    SafeIsPlain(req.qty);
    LettersArePlain("buy");
    LettersArePlain("sell");
    LettersArePlain("market");
    LettersArePlain("limit");
    if req.price.Some? {
      SafeIsPlain(req.price.value);
    }
    if req.clientOrderId.Some? {
      SafeIsPlain(req.clientOrderId.value);
    }
  }

  function OkxHead(req: OrderRequest): seq<J.Field>
    requires Plain(req.symbol) && Plain(req.side) && Plain(req.ordType) && Plain(req.qty)
  {
    LettersArePlain("cross");
    [TextField("instId", req.symbol), TextField("tdMode", Ascii("cross")), TextField("side", req.side),
     TextField("ordType", req.ordType), TextField("sz", req.qty)]
  }

  function OkxPrice(price: Option<Bytes>): seq<J.Field>
    requires price.Some? ==> Plain(price.value)
  {
    if price.Some? then [TextField("px", price.value)] else []
  }

  function OkxTail(reduceOnly: bool, id: Option<Bytes>): seq<J.Field>
    requires id.Some? ==> Plain(id.value)
  {
    (if reduceOnly then [REDUCE_ONLY_FIELD] else []) + (if id.Some? then [TextField("clOrdId", id.value)] else [])
  }

  /** The JSON document an OKX order stands for. */
  function OkxFields(req: OrderRequest): seq<J.Field>
    requires Quotable(req)
  {
    OkxHead(req) + OkxPrice(req.price) + OkxTail(req.reduceOnly, req.clientOrderId)
  }

  lemma {:induction false} FieldsAppend(fields: seq<J.Field>, f: J.Field, first: bool)
    requires |fields| > 0
    ensures J.PrintFields(fields + [f], first) == J.PrintFields(fields, first) + [J.COMMA] + J.PrintField(f)
  {
    hide J.PrintField;
    var all := fields + [f];
    assert all[1..] == fields[1..] + [f];
    var head := (if first then [] else [J.COMMA]) + J.PrintField(fields[0]);
    if |fields| == 1 {
      assert all[1..] == [f] && fields[1..] == [];
      assert [f][1..] == [];
      assert J.PrintFields([f], false) == [J.COMMA] + J.PrintField(f);
      assert J.PrintFields(fields, first) == head;
      ConcatAssoc(head, [J.COMMA], J.PrintField(f));
    } else {
      FieldsAppend(fields[1..], f, false);
      ConcatAssoc(head, J.PrintFields(fields[1..], false), [J.COMMA]);
      ConcatAssoc(head, J.PrintFields(fields[1..], false) + [J.COMMA], J.PrintField(f));
    }
  }

  method PushMember(out: Bytes, ghost fields: seq<J.Field>, piece: Bytes, ghost f: J.Field)
    returns (out': Bytes, ghost fields': seq<J.Field>)
    requires Opened(out, fields) && piece == J.PrintField(f)
    ensures fields' == fields + [f] && Opened(out', fields')
  {
    FieldsAppend(fields, f, true);
    hide J.PrintFields, J.PrintField;
    out' := out + [J.COMMA] + piece;
    fields' := fields + [f];
    ConcatAssoc([J.OPEN_BRACE], J.PrintFields(fields, true), [J.COMMA]);
    ConcatAssoc([J.OPEN_BRACE], J.PrintFields(fields, true) + [J.COMMA], piece);
  }

  /** What has been written so far: an opened object with these members. */
  ghost predicate Opened(out: Bytes, fields: seq<J.Field>) {
    |fields| > 0 && out == [J.OPEN_BRACE] + J.PrintFields(fields, true)
  }

  /** Refuses exactly the faulty requests; otherwise emits the JSON document of the request's fields. */
  method BuildOkxOrderBody(req: OrderRequest) returns (r: Result<Bytes, OrderError>)
    ensures OrderFault(req).Some? ==> r == Err(OrderFault(req).value)
    ensures OrderFault(req).None? ==> Quotable(req) && r == Ok(J.Print(J.Object(OkxFields(req))))
  {
    if OrderFault(req).None? {
      AcceptedIsQuotable(req);
    }
    hide HeadFault, PriceFault, IdFault, Plain, OkxHead, OkxPrice, OkxTail, J.PrintFields;
    if HeadFault(req).Some? {
      return Err(HeadFault(req).value);
    }
    HeadDecided(req);
    var out := PushOkxHead(req);
    r := PushOkxPrice(out, OkxHead(req), req);
    if r.Ok? {
      r := PushOkxTail(r.value, OkxHead(req) + OkxPrice(req.price), req);
      if r.Ok? {
        r := Ok(r.value + [J.CLOSE_BRACE]);
      }
    }
  }

  method PushOkxHead(req: OrderRequest) returns (out: Bytes)
    requires IsSafeValue(req.symbol) && IsSafeValue(req.qty)
    requires (req.side == BUY || req.side == SELL) && (req.ordType == MARKET || req.ordType == LIMIT)
    ensures Plain(req.symbol) && Plain(req.side) && Plain(req.ordType) && Plain(req.qty)
    ensures Opened(out, OkxHead(req))
  {
    hide IsSafeValue, Ascii, Plain, Member, TextField, J.PrintField;
    SafeIsPlain(req.symbol);
    SafeIsPlain(req.qty);
    LettersArePlain("buy");
    LettersArePlain("sell");
    LettersArePlain("market");
    LettersArePlain("limit");
    LettersArePlain("cross");
    MemberPrints("instId", req.symbol);
    MemberPrints("tdMode", Ascii("cross"));
    MemberPrints("side", req.side);
    MemberPrints("ordType", req.ordType);
    MemberPrints("sz", req.qty);
    ghost var fields := [TextField("instId", req.symbol)];
    out := [J.OPEN_BRACE] + Member("instId", req.symbol);
    OneMember(TextField("instId", req.symbol));
    hide J.PrintFields;
    out, fields := PushMember(out, fields, Member("tdMode", Ascii("cross")), TextField("tdMode", Ascii("cross")));
    out, fields := PushMember(out, fields, Member("side", req.side), TextField("side", req.side));
    out, fields := PushMember(out, fields, Member("ordType", req.ordType), TextField("ordType", req.ordType));
    out, fields := PushMember(out, fields, Member("sz", req.qty), TextField("sz", req.qty));
    assert fields == OkxHead(req);
  }

  lemma OneMember(f: J.Field)
    ensures J.PrintFields([f], true) == J.PrintField(f)
  {
    hide J.PrintField;
    assert [f][1..] == [];
  }

  method PushOkxPrice(out: Bytes, ghost before: seq<J.Field>, req: OrderRequest) returns (r: Result<Bytes, OrderError>)
    requires Opened(out, before)
    ensures PriceFault(req).Some? ==> r == Err(PriceFault(req).value)
    ensures PriceFault(req).None? ==>
      && (req.price.Some? ==> Plain(req.price.value))
      && r.Ok? && Opened(r.value, before + OkxPrice(req.price))
  {
    hide IsSafeValue, Plain, Member, TextField, J.PrintField, J.PrintFields;
    if req.ordType == LIMIT {
      if req.price.None? {
        return Err(PriceMissing);
      }
      if !IsSafeValue(req.price.value) {
        return Err(IllegalPrice);
      }
      SafeIsPlain(req.price.value);
      MemberPrints("px", req.price.value);
      var next, fields := PushMember(out, before, Member("px", req.price.value), TextField("px", req.price.value));
      r := Ok(next);
    } else if req.price.Some? {
      r := Err(PriceOnMarket);
    } else {
      assert before + OkxPrice(req.price) == before;
      r := Ok(out);
    }
  }

  method PushOkxTail(out: Bytes, ghost before: seq<J.Field>, req: OrderRequest) returns (r: Result<Bytes, OrderError>)
    requires Opened(out, before)
    ensures IdFault(req).Some? ==> r == Err(IdFault(req).value)
    ensures IdFault(req).None? ==>
      && (req.clientOrderId.Some? ==> Plain(req.clientOrderId.value))
      && r.Ok? && Opened(r.value, before + OkxTail(req.reduceOnly, req.clientOrderId))
  {
    hide IsSafeValue, Plain, Member, TextField, J.PrintField, J.PrintFields;
    ghost var fields := before;
    var next := out;
    if req.reduceOnly {
      ReduceOnlyPrints();
      next, fields := PushMember(next, fields, REDUCE_ONLY, REDUCE_ONLY_FIELD);
    }
    if req.clientOrderId.Some? {
      var id := req.clientOrderId.value;
      if !IsSafeValue(id) {
        return Err(IllegalClientId);
      }
      SafeIsPlain(id);
      MemberPrints("clOrdId", id);
      next, fields := PushMember(next, fields, Member("clOrdId", id), TextField("clOrdId", id));
    }
    assert fields == before + OkxTail(req.reduceOnly, req.clientOrderId);
    r := Ok(next);
  }

  lemma ToStrInjective(a: Bytes, b: Bytes)
    requires Plain(a) && Plain(b) && ToStr(a) == ToStr(b)
    ensures a == b
  {
    forall i | 0 <= i < |a| ensures a[i] == b[i] {
      assert ToStr(a)[i] == ToStr(b)[i];
    }
  }

  lemma TextFieldInjective(key: string, v: Bytes, key': string, v': Bytes)
    requires forall i :: 0 <= i < |key| ==> key[i] as int < 128
    requires forall i :: 0 <= i < |key'| ==> key'[i] as int < 128
    requires Plain(v) && Plain(v') && TextField(key, v) == TextField(key', v')
    ensures v == v'
  {
    ToStrInjective(v, v');
  }

  /** Different accepted requests stand for different documents. */
  lemma OkxFieldsInjective(a: OrderRequest, b: OrderRequest)
    requires OrderFault(a).None? && OrderFault(b).None? && Quotable(a) && Quotable(b)
    requires OkxFields(a) == OkxFields(b)
    ensures a == b
  {
    PriceFollowsType(a);
    PriceFollowsType(b);
    hide OrderFault, Plain, TextField, Ascii;
    var p, q := OkxFields(a), OkxFields(b);
    assert p[..5] == OkxHead(a) && q[..5] == OkxHead(b);
    OkxHeadInjective(a, b);
    hide OkxHead, OkxTail;
    if a.price.Some? {
      assert p[5] == OkxPrice(a.price)[0] && q[5] == OkxPrice(b.price)[0];
      TextFieldInjective("px", a.price.value, "px", b.price.value);
      assert p[5..][1..] == OkxTail(a.reduceOnly, a.clientOrderId);
      assert q[5..][1..] == OkxTail(b.reduceOnly, b.clientOrderId);
    } else {
      assert p[5..] == OkxTail(a.reduceOnly, a.clientOrderId) && q[5..] == OkxTail(b.reduceOnly, b.clientOrderId);
    }
    OkxTailInjective(a.reduceOnly, a.clientOrderId, b.reduceOnly, b.clientOrderId);
  }

  lemma OkxHeadInjective(a: OrderRequest, b: OrderRequest)
    requires Quotable(a) && Quotable(b) && OkxHead(a) == OkxHead(b)
    ensures a.symbol == b.symbol && a.side == b.side && a.ordType == b.ordType && a.qty == b.qty
  {
    hide Plain, TextField, Ascii;
    var p, q := OkxHead(a), OkxHead(b);
    assert p[0] == q[0] && p[2] == q[2] && p[3] == q[3] && p[4] == q[4];
    TextFieldInjective("instId", a.symbol, "instId", b.symbol);
    TextFieldInjective("side", a.side, "side", b.side);
    TextFieldInjective("ordType", a.ordType, "ordType", b.ordType);
    TextFieldInjective("sz", a.qty, "sz", b.qty);
  }

  lemma OkxTailInjective(r: bool, id: Option<Bytes>, r': bool, id': Option<Bytes>)
    requires (id.Some? ==> Plain(id.value)) && (id'.Some? ==> Plain(id'.value))
    requires OkxTail(r, id) == OkxTail(r', id')
    ensures r == r' && id == id'
  {
    hide Plain;
    var p, q := OkxTail(r, id), OkxTail(r', id');
    assert |p| > 0 ==> p[0] == q[0];
    assert |p| > 1 ==> p[1] == q[1];
    if id.Some? && id'.Some? {
      TextFieldInjective("clOrdId", id.value, "clOrdId", id'.value);
    }
  }

  /** Parsing an accepted body gives back exactly the request's fields, and no two requests share a body. */
  lemma OkxBodyIsUnambiguous(a: OrderRequest, b: OrderRequest)
    requires OrderFault(a).None? && OrderFault(b).None?
    ensures Quotable(a) && Quotable(b)
    ensures J.Parse(J.Print(J.Object(OkxFields(a)))) == Some((J.Object(OkxFields(a)), []))
    ensures J.Print(J.Object(OkxFields(a))) == J.Print(J.Object(OkxFields(b))) <==> a == b
  {
    AcceptedIsQuotable(a);
    AcceptedIsQuotable(b);
    OkxParses(a);
    OkxParses(b);
    hide OrderFault, OkxFields, J.Parse, J.Print, Quotable;
    if J.Print(J.Object(OkxFields(a))) == J.Print(J.Object(OkxFields(b))) {
      OkxFieldsInjective(a, b);
    }
  }

  lemma OkxParses(req: OrderRequest)
    requires Quotable(req)
    ensures J.Parse(J.Print(J.Object(OkxFields(req)))) == Some((J.Object(OkxFields(req)), []))
  {
    hide Plain, J.Parse, J.Print;
    assert J.NumberFree(J.Object(OkxFields(req)));
    J.ParsePrint(J.Object(OkxFields(req)), []);
    assert J.Print(J.Object(OkxFields(req))) + [] == J.Print(J.Object(OkxFields(req)));
  }

  // ---------------------------------------------------------------- what OKX reads

  /** A reader of the object finds this member. */
  predicate Holds(fields: seq<J.Field>, name: string, value: J.Json) {
    J.Field(Ascii(name), value) in fields
  }

  predicate Misses(fields: seq<J.Field>, name: string) {
    forall i :: 0 <= i < |fields| ==> fields[i].key != Ascii(name)
  }

  predicate HoldsIf(fields: seq<J.Field>, name: string, value: Option<J.Json>) {
    if value.Some? then Holds(fields, name, value.value) else Misses(fields, name)
  }

  const OKX_KEYS := ["instId", "tdMode", "side", "ordType", "sz", "px", "reduceOnly", "clOrdId"]

  predicate OnlyMembers(fields: seq<J.Field>, names: seq<string>) {
    forall i :: 0 <= i < |fields| ==> exists j :: 0 <= j < |names| && fields[i].key == Ascii(names[j])
  }

  /** The object says the order: each value under its name, nothing twice and nothing else. */
  ghost predicate SaysOkx(fields: seq<J.Field>, req: OrderRequest) {
    && J.KeysDiffer(fields) && OnlyMembers(fields, OKX_KEYS)
    && Holds(fields, "instId", J.String(req.symbol)) && Holds(fields, "tdMode", J.String(Ascii("cross")))
    && Holds(fields, "side", J.String(req.side)) && Holds(fields, "ordType", J.String(req.ordType))
    && Holds(fields, "sz", J.String(req.qty))
    && (req.price.Some? <==> req.ordType == Ascii("limit"))
    && HoldsIf(fields, "px", if req.price.Some? then Some(J.String(req.price.value)) else None)
    && HoldsIf(fields, "reduceOnly", if req.reduceOnly then Some(J.Bool(true)) else None)
    && var id := req.clientOrderId;
    && HoldsIf(fields, "clOrdId", if id.Some? then Some(J.String(id.value)) else None)
  }

  /** The place of a key in the order the members are written. */
  function Place(key: Str): nat {
    if |key| < 2 then 99
    else if key[0] == 105 then 0
    else if key[0] == 116 then 1
    else if key[0] == 115 && |key| == 4 then 2
    else if key[0] == 111 then 3
    else if key[0] == 115 then 4
    else if key[0] == 112 then 5
    else if key[0] == 114 then 6
    else 7
  }

  lemma Places()
    ensures Place(Ascii("instId")) == 0 && Place(Ascii("tdMode")) == 1 && Place(Ascii("side")) == 2
    ensures Place(Ascii("ordType")) == 3 && Place(Ascii("sz")) == 4 && Place(Ascii("px")) == 5
    ensures Place(Ascii("reduceOnly")) == 6 && Place(Ascii("clOrdId")) == 7
  {
  }

  predicate Placed(fields: seq<J.Field>, lo: nat, hi: nat) {
    && (forall i :: 0 <= i < |fields| ==> lo <= Place(fields[i].key) < hi)
    && forall i, j :: 0 <= i < j < |fields| ==> Place(fields[i].key) < Place(fields[j].key)
  }

  lemma PlacedConcat(p: seq<J.Field>, q: seq<J.Field>, lo: nat, mid: nat, hi: nat)
    requires Placed(p, lo, mid) && Placed(q, mid, hi) && lo <= mid <= hi
    ensures Placed(p + q, lo, hi)
  {
    hide Place;
  }

  lemma PlacedDiffer(p: seq<J.Field>, lo: nat, hi: nat)
    requires Placed(p, lo, hi)
    ensures J.KeysDiffer(p)
  {
    hide Place;
    forall i, j | 0 <= i < j < |p| ensures p[i].key != p[j].key {
      assert Place(p[i].key) < Place(p[j].key);
    }
  }

  lemma TextFieldIs(key: string, v: Bytes)
    requires Plain(v)
    ensures TextField(key, v) == J.Field(Ascii(key), J.String(v))
  {
    assert ToStr(Ascii(key)) == Ascii(key) && ToStr(v) == v;
  }

  lemma OkxHeadIs(req: OrderRequest)
    requires Quotable(req)
    ensures OkxHead(req) == [
      J.Field(Ascii("instId"), J.String(req.symbol)), J.Field(Ascii("tdMode"), J.String(Ascii("cross"))),
      J.Field(Ascii("side"), J.String(req.side)), J.Field(Ascii("ordType"), J.String(req.ordType)),
      J.Field(Ascii("sz"), J.String(req.qty))]
  {
    LettersArePlain("cross");
    hide Plain, TextField, Ascii;
    TextFieldIs("instId", req.symbol);
    TextFieldIs("tdMode", Ascii("cross"));
    TextFieldIs("side", req.side);
    TextFieldIs("ordType", req.ordType);
    TextFieldIs("sz", req.qty);
  }

  lemma OkxPriceIs(price: Option<Bytes>)
    requires price.Some? ==> Plain(price.value)
    ensures OkxPrice(price) == if price.Some? then [J.Field(Ascii("px"), J.String(price.value))] else []
  {
    hide Plain, TextField, Ascii;
    if price.Some? {
      TextFieldIs("px", price.value);
    }
  }

  lemma OkxTailIs(reduceOnly: bool, id: Option<Bytes>)
    requires id.Some? ==> Plain(id.value)
    ensures OkxTail(reduceOnly, id)
         == (if reduceOnly then [J.Field(Ascii("reduceOnly"), J.Bool(true))] else [])
            + (if id.Some? then [J.Field(Ascii("clOrdId"), J.String(id.value))] else [])
  {
    assert REDUCE_ONLY_FIELD == J.Field(Ascii("reduceOnly"), J.Bool(true)) by {
      assert ToStr(Ascii("reduceOnly")) == Ascii("reduceOnly");
    }
    hide Plain, TextField, Ascii;
    if id.Some? {
      TextFieldIs("clOrdId", id.value);
    }
  }

  lemma OkxIsPlaced(req: OrderRequest)
    requires Quotable(req)
    ensures Placed(OkxHead(req), 0, 5) && Placed(OkxPrice(req.price), 5, 6)
    ensures Placed(OkxTail(req.reduceOnly, req.clientOrderId), 6, 8)
  {
    Places();
    HeadPlaced(req);
    OkxPriceIs(req.price);
    TailPlaced(req.reduceOnly, req.clientOrderId);
    hide Place, Ascii, OkxHead, OkxPrice, OkxTail, Quotable;
  }

  lemma HeadPlaced(req: OrderRequest)
    requires Quotable(req)
    ensures Placed(OkxHead(req), 0, 5)
  {
    OkxHeadIs(req);
    Places();
    hide Place, Ascii, OkxHead, Quotable;
  }

  lemma TailPlaced(reduceOnly: bool, id: Option<Bytes>)
    requires id.Some? ==> Plain(id.value)
    ensures Placed(OkxTail(reduceOnly, id), 6, 8)
  {
    OkxTailIs(reduceOnly, id);
    Places();
    hide Place, Ascii, OkxTail, Plain;
  }

  lemma OkxNames(req: OrderRequest)
    requires Quotable(req)
    ensures OnlyMembers(OkxFields(req), OKX_KEYS)
  {
    OkxHeadIs(req);
    OkxPriceIs(req.price);
    OkxTailIs(req.reduceOnly, req.clientOrderId);
    hide Ascii, OkxHead, OkxPrice, OkxTail, Quotable;
    var n := OKX_KEYS;
    assert n[0] == "instId" && n[1] == "tdMode" && n[2] == "side" && n[3] == "ordType";
    assert n[4] == "sz" && n[5] == "px" && n[6] == "reduceOnly" && n[7] == "clOrdId";
  }

  lemma OkxHeadSaid(req: OrderRequest)
    requires Quotable(req)
    ensures var f := OkxFields(req);
      && Holds(f, "instId", J.String(req.symbol)) && Holds(f, "tdMode", J.String(Ascii("cross")))
      && Holds(f, "side", J.String(req.side)) && Holds(f, "ordType", J.String(req.ordType))
      && Holds(f, "sz", J.String(req.qty))
  {
    OkxHeadIs(req);
    hide Ascii, OkxHead, OkxPrice, OkxTail, Quotable;
    var f, h := OkxFields(req), OkxHead(req);
    assert f[0] == h[0] && f[1] == h[1] && f[2] == h[2] && f[3] == h[3] && f[4] == h[4];
  }

  lemma PlacedMisses(p: seq<J.Field>, lo: nat, hi: nat, name: string)
    requires Placed(p, lo, hi) && !(lo <= Place(Ascii(name)) < hi)
    ensures Misses(p, name)
  {
    hide Place;
  }

  lemma PartHolds(a: seq<J.Field>, b: seq<J.Field>, c: seq<J.Field>, name: string, value: Option<J.Json>)
    requires HoldsIf(b, name, value) && Misses(a, name) && Misses(c, name)
    ensures HoldsIf(a + b + c, name, value)
  {
    if value.Some? {
      var i :| 0 <= i < |b| && b[i] == J.Field(Ascii(name), value.value);
      assert (a + b + c)[|a| + i] == b[i];
    }
  }

  lemma OkxPriceSaid(req: OrderRequest)
    requires Quotable(req)
    ensures HoldsIf(OkxFields(req), "px", if req.price.Some? then Some(J.String(req.price.value)) else None)
  {
    OkxIsPlaced(req);
    Places();
    OkxPriceIs(req.price);
    hide Ascii, OkxHead, OkxPrice, OkxTail, Quotable, Place, Placed;
    var h, p, t := OkxHead(req), OkxPrice(req.price), OkxTail(req.reduceOnly, req.clientOrderId);
    PlacedMisses(h, 0, 5, "px");
    PlacedMisses(t, 6, 8, "px");
    if req.price.Some? {
      assert p[0] in p;
    }
    PartHolds(h, p, t, "px", if req.price.Some? then Some(J.String(req.price.value)) else None);
  }

  lemma OkxTailSays(reduceOnly: bool, id: Option<Bytes>)
    requires id.Some? ==> Plain(id.value)
    ensures var t := OkxTail(reduceOnly, id);
      && HoldsIf(t, "reduceOnly", if reduceOnly then Some(J.Bool(true)) else None)
      && HoldsIf(t, "clOrdId", if id.Some? then Some(J.String(id.value)) else None)
  {
    OkxTailIs(reduceOnly, id);
    AsciiInjective("reduceOnly", "clOrdId");
    hide Ascii, OkxTail, Plain;
    var t := OkxTail(reduceOnly, id);
    if reduceOnly {
      assert t[0] in t;
    }
    if id.Some? {
      assert t[|t| - 1] in t;
    }
  }

  lemma OkxTailSaid(req: OrderRequest)
    requires Quotable(req)
    ensures HoldsIf(OkxFields(req), "reduceOnly", if req.reduceOnly then Some(J.Bool(true)) else None)
    ensures var id := req.clientOrderId;
      HoldsIf(OkxFields(req), "clOrdId", if id.Some? then Some(J.String(id.value)) else None)
  {
    OkxIsPlaced(req);
    Places();
    OkxTailSays(req.reduceOnly, req.clientOrderId);
    hide Ascii, OkxHead, OkxPrice, OkxTail, Quotable, Place, Placed, HoldsIf;
    var h, p, t := OkxHead(req), OkxPrice(req.price), OkxTail(req.reduceOnly, req.clientOrderId);
    PlacedConcat(h, p, 0, 5, 6);
    PlacedMisses(h + p, 0, 6, "reduceOnly");
    PlacedMisses(h + p, 0, 6, "clOrdId");
    assert h + p + t + [] == h + p + t;
    PartHolds(h + p, t, [], "reduceOnly", if req.reduceOnly then Some(J.Bool(true)) else None);
    var id := req.clientOrderId;
    PartHolds(h + p, t, [], "clOrdId", if id.Some? then Some(J.String(id.value)) else None);
  }

  /** The body of an accepted order, parsed and read by name: the order and nothing else. */
  lemma OkxBodySays(req: OrderRequest)
    requires OrderFault(req).None?
    ensures Quotable(req)
    ensures var r := J.Parse(J.Print(J.Object(OkxFields(req))));
      r.Some? && r.value.1 == [] && r.value.0.Object? && SaysOkx(r.value.0.fields, req)
  {
    AcceptedIsQuotable(req);
    PriceFollowsType(req);
    OkxParses(req);
    OkxIsPlaced(req);
    OkxNames(req);
    OkxHeadSaid(req);
    OkxPriceSaid(req);
    OkxTailSaid(req);
    hide J.Parse, J.Print, OkxHead, OkxPrice, OkxTail, OrderFault, Quotable, Holds, HoldsIf, OnlyMembers, Placed, Ascii;
    PlacedConcat(OkxHead(req), OkxPrice(req.price), 0, 5, 6);
    PlacedConcat(OkxHead(req) + OkxPrice(req.price), OkxTail(req.reduceOnly, req.clientOrderId), 0, 6, 8);
    PlacedDiffer(OkxFields(req), 0, 8);
  }

  // ---------------------------------------------------------------- the signed query

  const TIMESTAMP: Bytes := Ascii("timestamp=")
  const RECV_WINDOW: Bytes := Ascii("&recvWindow=")
  const SIGNATURE: Bytes := Ascii("&signature=")
  const FIVE_SECONDS: Bytes := Ascii("5000")

  /** The query the enclave composes around the caller's parameters. */
  function FullQuery(userQuery: Bytes, timestampMs: nat): Bytes {
    (if userQuery == [] then [] else userQuery + [AMPERSAND])
    + TIMESTAMP + DecimalText(timestampMs) + RECV_WINDOW + FIVE_SECONDS
  }

  /** The bytes the venue HMAC is computed over. */
  function SignedString(userQuery: Bytes, timestampMs: nat, body: Bytes): Bytes {
    FullQuery(userQuery, timestampMs) + body
  }

  type Headers = map<string, Bytes>

  /** The enclave's answer; `sign` is the hex HMAC. */
  function ComputeBinanceHeaders(
    sign: Bytes -> Bytes, key: Bytes, timestampMs: nat, userQuery: Bytes, body: Bytes): Headers
  {
    map["X-MBX-APIKEY" := key, "signature" := sign(SignedString(userQuery, timestampMs, body)),
        "timestamp" := DecimalText(timestampMs), "recvWindow" := FIVE_SECONDS]
  }

  predicate IsSafeQueryValue(v: Bytes) {
    |v| > 0 && forall i :: 0 <= i < |v| ==> IsAlnum(v[i]) || v[i] == 95 || v[i] == 45
  }

  /** The response headers, from which the gateway takes what belongs in the query. */
  class HeaderMap {
    var fields: Headers

    constructor (fields: Headers)
      ensures this.fields == fields
    {
      this.fields := fields;
    }

    method Remove(name: string) returns (value: Option<Bytes>)
      modifies this
      ensures fields == old(fields) - {name}
      ensures value == if name in old(fields) then Some(old(fields)[name]) else None
    {
      value := if name in fields then Some(fields[name]) else None;
      fields := fields - {name};
    }
  }

  datatype AssemblyError = MissingSignature | MissingTimestamp | UnsafeComponent | UnsafeCanonical

  /** The three values the gateway takes out, or why it cannot. */
  function TakenFrom(h: Headers): Result<(Bytes, Bytes, Bytes), AssemblyError> {
    if "signature" !in h then Err(MissingSignature)
    else if "timestamp" !in h then Err(MissingTimestamp)
    else
      var window := if "recvWindow" in h then h["recvWindow"] else FIVE_SECONDS;
      if IsSafeQueryValue(h["signature"]) && IsSafeQueryValue(h["timestamp"]) && IsSafeQueryValue(window) then
        Ok((h["signature"], h["timestamp"], window))
      else Err(UnsafeComponent)
  }

  predicate HasBoth(h: Headers) {
    "signature" in h && "timestamp" in h
  }

  /** The query the gateway puts together, up to the signature. */
  function Sent(userQuery: Bytes, timestamp: Bytes, window: Bytes): Bytes {
    (if userQuery == [] then [] else userQuery + [AMPERSAND]) + TIMESTAMP + timestamp + RECV_WINDOW + window
  }

  predicate PassesAsCanonical(canonical: Bytes) {
    canonical != [] && Unbroken(canonical)
  }

  /** The gateway passes on a query with no space, line break or zero byte in it. */
  lemma PassesExactly(canonical: Bytes)
    ensures PassesAsCanonical(canonical) <==>
      && |canonical| > 0
      && forall i :: 0 <= i < |canonical| ==>
           canonical[i] != ' ' as int && canonical[i] != '\n' as int && canonical[i] != '\r' as int && canonical[i] != 0
  {
  }

  /** It takes header values of letters, digits, `-` and `_` only. */
  lemma SafeQueryValueMeans(v: Bytes)
    ensures IsSafeQueryValue(v) <==>
      && |v| > 0
      && forall i :: 0 <= i < |v| ==>
           || 'A' as int <= v[i] <= 'Z' as int || 'a' as int <= v[i] <= 'z' as int
           || '0' as int <= v[i] <= '9' as int || v[i] == '-' as int || v[i] == '_' as int
  {
  }

  /** What the gateway sends for an order, or why it sends nothing. */
  function SignedQs(canonical: Bytes, h: Headers): Result<Bytes, AssemblyError> {
    var taken :- TakenFrom(h);
    if PassesAsCanonical(canonical) then Ok(Sent(canonical, taken.1, taken.2) + SIGNATURE + taken.0)
    else Err(UnsafeCanonical)
  }

  /** What it sends for a signed read. */
  function SignedUrl(base: Bytes, path: Bytes, userQuery: Bytes, h: Headers): Result<Bytes, AssemblyError> {
    var taken :- TakenFrom(h);
    Ok(base + path + [63] + (Sent(userQuery, taken.1, taken.2) + SIGNATURE + taken.0))
  }

  method BuildBinanceSignedQs(canonical: Bytes, headers: HeaderMap) returns (r: Result<Bytes, AssemblyError>)
    modifies headers
    ensures headers.fields == old(headers.fields)
      - if HasBoth(old(headers.fields)) then {"signature", "timestamp", "recvWindow"} else {"signature", "timestamp"}
    ensures r == SignedQs(canonical, old(headers.fields))
  {
    hide IsSafeQueryValue, Ascii;
    var signature := headers.Remove("signature");
    var timestamp := headers.Remove("timestamp");
    if signature.None? || timestamp.None? {
      return Err(if signature.None? then MissingSignature else MissingTimestamp);
    }
    var window := headers.Remove("recvWindow");
    var recv := if window.Some? then window.value else FIVE_SECONDS;
    if !IsSafeQueryValue(signature.value) || !IsSafeQueryValue(timestamp.value) || !IsSafeQueryValue(recv) {
      return Err(UnsafeComponent);
    }
    if canonical == [] || exists i :: 0 <= i < |canonical| && UnsafeInCanonical(canonical[i]) {
      return Err(UnsafeCanonical);
    }
    r := Ok(canonical + [AMPERSAND] + TIMESTAMP + timestamp.value + RECV_WINDOW + recv + SIGNATURE + signature.value);
  }

  method BinanceSignedUrl(base: Bytes, path: Bytes, userQuery: Bytes, headers: HeaderMap)
    returns (r: Result<Bytes, AssemblyError>)
    modifies headers
    ensures headers.fields == old(headers.fields)
      - if HasBoth(old(headers.fields)) then {"signature", "timestamp", "recvWindow"} else {"signature"}
    ensures r == SignedUrl(base, path, userQuery, old(headers.fields))
  {
    hide IsSafeQueryValue, Ascii;
    var signature := headers.Remove("signature");
    if signature.None? {
      return Err(MissingSignature);
    }
    var timestamp := headers.Remove("timestamp");
    if timestamp.None? {
      return Err(MissingTimestamp);
    }
    var window := headers.Remove("recvWindow");
    var recv := if window.Some? then window.value else FIVE_SECONDS;
    if !IsSafeQueryValue(signature.value) || !IsSafeQueryValue(timestamp.value) || !IsSafeQueryValue(recv) {
      return Err(UnsafeComponent);
    }
    var prefix := if userQuery == [] then [] else userQuery + [AMPERSAND];
    r := Ok(base + path + [63]
            + (prefix + TIMESTAMP + timestamp.value + RECV_WINDOW + recv + SIGNATURE + signature.value));
  }

  // ---------------------------------------------------------------- from the enclave to the venue

  /** The hexadecimal text of an HMAC-SHA-256. */
  predicate IsHex(v: Bytes) {
    |v| == 64 && forall i :: 0 <= i < |v| ==> IsDigit(v[i]) || 97 <= v[i] <= 102
  }

  lemma DigitsAreSafe(v: Bytes)
    requires |v| > 0 && AllDigits(v)
    ensures IsSafeQueryValue(v)
  {
  }

  /** The bytes the HMAC covers, as text. */
  lemma SignedStringIs(userQuery: Bytes, timestampMs: nat, body: Bytes)
    ensures SignedString(userQuery, timestampMs, body)
         == (if userQuery == [] then [] else userQuery + Ascii("&"))
            + Ascii("timestamp=") + DecimalText(timestampMs) + Ascii("&recvWindow=5000") + body
  {
    assert Ascii("&") == [AMPERSAND];
    assert Ascii("&recvWindow=5000") == Ascii("&recvWindow=") + Ascii("5000");
    hide Ascii, DecimalText;
    var q := (if userQuery == [] then [] else userQuery + [AMPERSAND]) + TIMESTAMP + DecimalText(timestampMs);
    ConcatAssoc(q, Ascii("&recvWindow="), Ascii("5000"));
  }

  /** Of the enclave's own headers, with a signature in hex, the gateway takes the values the enclave signed. */
  lemma TakenIsWhatWasSigned(sign: Bytes -> Bytes, key: Bytes, timestampMs: nat, userQuery: Bytes, body: Bytes)
    requires IsHex(sign(SignedString(userQuery, timestampMs, body)))
    ensures TakenFrom(ComputeBinanceHeaders(sign, key, timestampMs, userQuery, body))
         == Ok((sign(SignedString(userQuery, timestampMs, body)), DecimalText(timestampMs), FIVE_SECONDS))
  {
    hide DecimalText, SignedString;
    DigitsAreSafe(DecimalText(timestampMs));
    DigitsAreSafe(FIVE_SECONDS);
  }

  /** A string with its signature appended. */
  function WithSignature(sign: Bytes -> Bytes, signed: Bytes): Bytes {
    signed + SIGNATURE + sign(signed)
  }

  lemma EmptyBodyMatters(userQuery: Bytes, timestampMs: nat, body: Bytes, sign: Bytes -> Bytes)
    ensures var signed := SignedString(userQuery, timestampMs, body);
      Sent(userQuery, DecimalText(timestampMs), FIVE_SECONDS) + SIGNATURE + sign(signed) == WithSignature(sign, signed)
      <==> body == []
  {
    hide DecimalText, Ascii;
    var sent := Sent(userQuery, DecimalText(timestampMs), FIVE_SECONDS);
    assert SignedString(userQuery, timestampMs, body) == sent + body;
    if body == [] {
      assert sent + body == sent;
    } else {
      var sig := sign(sent + body);
      assert |sent + SIGNATURE + sig| < |sent + body + SIGNATURE + sig|;
    }
  }

  /**
   The gateway's query and its URL, made from the enclave's own headers, are never refused for the headers' sake, and
   hold before the signature exactly the bytes it was computed over, with or without a user query, exactly when the
   enclave signed an empty body.
   */
  lemma GatewaySendsWhatWasSigned(
    sign: Bytes -> Bytes, key: Bytes, timestampMs: nat, userQuery: Bytes, body: Bytes, base: Bytes, path: Bytes)
    requires IsHex(sign(SignedString(userQuery, timestampMs, body)))
    ensures var h := ComputeBinanceHeaders(sign, key, timestampMs, userQuery, body);
      var signed := SignedString(userQuery, timestampMs, body);
      && (SignedQs(userQuery, h).Ok? <==> PassesAsCanonical(userQuery))
      && (SignedQs(userQuery, h).Ok? ==> (SignedQs(userQuery, h).value == WithSignature(sign, signed) <==> body == []))
      && SignedUrl(base, path, userQuery, h).Ok?
      && (SignedUrl(base, path, userQuery, h).value == base + path + [63] + WithSignature(sign, signed) <==> body == [])
  {
    hide Sent, SignedString, PassesAsCanonical, ComputeBinanceHeaders, DecimalText, Ascii;
    hide TakenFrom, IsHex, WithSignature;
    TakenIsWhatWasSigned(sign, key, timestampMs, userQuery, body);
    EmptyBodyMatters(userQuery, timestampMs, body, sign);
    var signed := SignedString(userQuery, timestampMs, body);
    var query := Sent(userQuery, DecimalText(timestampMs), FIVE_SECONDS) + SIGNATURE + sign(signed);
    SameTail(base + path + [63], query, WithSignature(sign, signed));
  }

  /** The parameters added on the way: the clock, the window and the signature. */
  function StampsOf(timestamp: Bytes, window: Bytes, signature: Bytes): seq<Param> {
    [Param(Ascii("timestamp"), timestamp), Param(Ascii("recvWindow"), window), Param(Ascii("signature"), signature)]
  }

  function Stamps(timestampMs: nat, signature: Bytes): seq<Param> {
    StampsOf(DecimalText(timestampMs), FIVE_SECONDS, signature)
  }

  lemma StampsPlain(timestamp: Bytes, window: Bytes, signature: Bytes)
    requires IsSafeValue(timestamp) && IsSafeValue(window) && IsSafeValue(signature)
    ensures AllPlain(StampsOf(timestamp, window, signature)) && |StampsOf(timestamp, window, signature)| == 3
  {
    hide PlainParam, IsSafeValue;
    PlainValueParam("timestamp", timestamp);
    PlainValueParam("recvWindow", window);
    PlainValueParam("signature", signature);
  }

  lemma DigitsArePlain(v: Bytes)
    requires |v| > 0 && AllDigits(v)
    ensures IsSafeValue(v)
  {
  }

  lemma HexIsPlain(v: Bytes)
    requires IsHex(v)
    ensures IsSafeValue(v)
  {
  }

  /** The stamped parameters encode to the query the gateway sends. */
  lemma StampedEncodes(params: seq<Param>, timestamp: Bytes, window: Bytes, signature: Bytes)
    ensures FormEncode(params + StampsOf(timestamp, window, signature))
         == Sent(FormEncode(params), timestamp, window) + SIGNATURE + signature
  {
    var st := StampsOf(timestamp, window, signature);
    var first := params + [st[0]];
    assert params + st == first + [st[1]] + [st[2]];
    FormAppend(first, st[1]);
    FormAppend(first + [st[1]], st[2]);
    StampKeys();
    FirstStamp(params, timestamp);
    hide FormEncode, Sent, Ascii, StampsOf;
    var sent := (if FormEncode(params) == [] then [] else FormEncode(params) + [AMPERSAND]) + TIMESTAMP + timestamp;
    KeyThenValue(sent, Ascii("recvWindow"), window, RECV_WINDOW);
    KeyThenValue(sent + RECV_WINDOW + window, Ascii("signature"), signature, SIGNATURE);
    SentIs(FormEncode(params), timestamp, window);
    StampsAre(timestamp, window, signature);
  }

  lemma StampsAre(timestamp: Bytes, window: Bytes, signature: Bytes)
    ensures StampsOf(timestamp, window, signature)[1] == Param(Ascii("recvWindow"), window)
    ensures StampsOf(timestamp, window, signature)[2] == Param(Ascii("signature"), signature)
  {
    hide Ascii;
  }

  lemma SentIs(userQuery: Bytes, timestamp: Bytes, window: Bytes)
    ensures Sent(userQuery, timestamp, window)
         == (if userQuery == [] then [] else userQuery + [AMPERSAND]) + TIMESTAMP + timestamp + RECV_WINDOW + window
  {
  }

  lemma StampKeys()
    ensures TIMESTAMP == Ascii("timestamp") + [EQUALS]
    ensures RECV_WINDOW == [AMPERSAND] + (Ascii("recvWindow") + [EQUALS])
    ensures SIGNATURE == [AMPERSAND] + (Ascii("signature") + [EQUALS])
  {
  }

  lemma KeyThenValue(before: Bytes, key: Bytes, value: Bytes, joint: Bytes)
    requires joint == [AMPERSAND] + (key + [EQUALS])
    ensures before + [AMPERSAND] + EncodeParam(Param(key, value)) == before + joint + value
  {
    ConcatAssoc(before, [AMPERSAND], key + [EQUALS] + value);
    ConcatAssoc([AMPERSAND], key + [EQUALS], value);
    ConcatAssoc(before, joint, value);
  }

  lemma FirstStamp(params: seq<Param>, timestamp: Bytes)
    ensures FormEncode(params + [Param(Ascii("timestamp"), timestamp)])
         == (if FormEncode(params) == [] then [] else FormEncode(params) + [AMPERSAND]) + TIMESTAMP + timestamp
  {
    hide Ascii;
    StampKeys();
    var p := Param(Ascii("timestamp"), timestamp);
    assert EncodeParam(p) == TIMESTAMP + timestamp;
    if |params| == 0 {
      assert params + [p] == [p];
      assert [] + EncodeParam(p) == EncodeParam(p);
    } else {
      FormAppend(params, p);
      EncodingIsNotEmpty(params);
      ConcatAssoc(FormEncode(params) + [AMPERSAND], TIMESTAMP, timestamp);
    }
  }

  lemma EncodingIsNotEmpty(params: seq<Param>)
    requires |params| > 0
    ensures FormEncode(params) != []
  {
  }

  /** What plain parameters encode to passes the gateway's own test of a query. */
  lemma {:induction false} PlainPasses(params: seq<Param>)
    requires |params| > 0 && AllPlain(params)
    ensures PassesAsCanonical(FormEncode(params))
  {
    hide CleanParam;
    EncodingIsNotEmpty(params);
    assert PlainParam(params[0]);
    assert Unbroken(EncodeParam(params[0]));
    if |params| > 1 {
      PlainPasses(params[1..]);
    }
  }

  /** A query of plain parameters goes out as it was signed, and the venue reads those parameters and the stamps. */
  lemma PlainQueryGoesOut(
    sign: Bytes -> Bytes, key: Bytes, timestampMs: nat, params: seq<Param>, base: Bytes, path: Bytes)
    requires AllPlain(params) && IsHex(sign(SignedString(FormEncode(params), timestampMs, [])))
    ensures var query := FormEncode(params);
      var h := ComputeBinanceHeaders(sign, key, timestampMs, query, []);
      var sent := WithSignature(sign, SignedString(query, timestampMs, []));
      && SignedUrl(base, path, query, h) == Ok(base + path + [63] + sent)
      && (|params| > 0 ==> SignedQs(query, h) == Ok(sent))
      && ReadForm(sent) == params + Stamps(timestampMs, sign(SignedString(query, timestampMs, [])))
  {
    hide FormEncode, AllPlain, IsHex, SignedString, SignedQs, SignedUrl, StampsOf, ReadForm, DecimalText, Ascii;
    var query := FormEncode(params);
    var signature := sign(SignedString(query, timestampMs, []));
    GatewaySendsWhatWasSigned(sign, key, timestampMs, query, [], base, path);
    EmptyBodyMatters(query, timestampMs, [], sign);
    StampedEncodes(params, DecimalText(timestampMs), FIVE_SECONDS, signature);
    DigitsArePlain(DecimalText(timestampMs));
    DigitsArePlain(FIVE_SECONDS);
    HexIsPlain(signature);
    StampsPlain(DecimalText(timestampMs), FIVE_SECONDS, signature);
    AllStamped(params, Stamps(timestampMs, signature));
    if |params| > 0 {
      PlainPasses(params);
    }
  }

  lemma AllStamped(params: seq<Param>, stamps: seq<Param>)
    requires AllPlain(params) && AllPlain(stamps) && |stamps| > 0
    ensures ReadForm(FormEncode(params + stamps)) == params + stamps
    ensures PassesAsCanonical(FormEncode(params + stamps))
  {
    hide FormEncode, ReadForm, PlainParam;
    assert AllPlain(params + stamps);
    PlainPasses(params + stamps);
    PlainIsClean(params + stamps);
    FormReadsBack(params + stamps);
  }

  lemma PlainIsClean(params: seq<Param>)
    requires AllPlain(params)
    ensures forall i :: 0 <= i < |params| ==> CleanParam(params[i])
  {
    hide CleanParam, Unbroken;
  }

  lemma SafeQueryValueIsSafe(v: Bytes)
    requires IsSafeQueryValue(v)
    ensures IsSafeValue(v)
  {
  }

  /**
   Whatever headers arrive, what the gateway sends splits into the query's own parameters and the three header values
   under their names: no header can bring in a parameter, a space, a line break or a zero byte.
   */
  lemma HeadersAddNothing(params: seq<Param>, h: Headers)
    requires AllPlain(params) && SignedQs(FormEncode(params), h).Ok?
    ensures "timestamp" in h && "signature" in h
    ensures var sent := SignedQs(FormEncode(params), h).value;
      var window := if "recvWindow" in h then h["recvWindow"] else Ascii("5000");
      && ReadForm(sent) == params + StampsOf(h["timestamp"], window, h["signature"])
      && Unbroken(sent)
  {
    hide FormEncode, AllPlain, StampsOf, ReadForm, Ascii, IsSafeQueryValue, IsSafeValue, Sent, Unbroken;
    var window := if "recvWindow" in h then h["recvWindow"] else Ascii("5000");
    assert FIVE_SECONDS == Ascii("5000");
    SafeQueryValueIsSafe(h["timestamp"]);
    SafeQueryValueIsSafe(window);
    SafeQueryValueIsSafe(h["signature"]);
    StampsPlain(h["timestamp"], window, h["signature"]);
    StampedEncodes(params, h["timestamp"], window, h["signature"]);
    AllStamped(params, StampsOf(h["timestamp"], window, h["signature"]));
  }

  // ---------------------------------------------------------------- what the venues read

  /** A venue that reads parameters by name finds this one. */
  predicate Has(params: seq<Param>, name: string, value: Bytes) {
    Param(Ascii(name), value) in params
  }

  predicate Lacks(params: seq<Param>, name: string) {
    forall i :: 0 <= i < |params| ==> params[i].key != Ascii(name)
  }

  predicate OncePerKey(params: seq<Param>) {
    forall i, j :: 0 <= i < j < |params| ==> params[i].key != params[j].key
  }

  /** An optional parameter is there with its value, or not at all. */
  predicate HasIf(params: seq<Param>, name: string, value: Option<Bytes>) {
    if value.Some? then Has(params, name, value.value) else Lacks(params, name)
  }

  function Both(x: Option<Bytes>, y: bool): Option<Bytes> {
    if y then x else None
  }

  const ORDER_KEYS := ["symbol", "side", "type", "quantity", "price", "timeInForce", "reduceOnly", "newClientOrderId"]
  const STAMP_KEYS := ["timestamp", "recvWindow", "signature"]

  predicate Named(key: Bytes, names: seq<string>) {
    exists j :: 0 <= j < |names| && key == Ascii(names[j])
  }

  predicate OnlyKeys(params: seq<Param>, names: seq<string>) {
    forall i :: 0 <= i < |params| ==> Named(params[i].key, names)
  }

  predicate SaysHead(params: seq<Param>, req: OrderRequest) {
    && Has(params, "symbol", req.symbol) && Has(params, "quantity", req.qty)
    && (req.side == Ascii("buy") ==> Has(params, "side", Ascii("BUY")))
    && (req.side == Ascii("sell") ==> Has(params, "side", Ascii("SELL")))
    && (req.ordType == Ascii("market") ==> Has(params, "type", Ascii("MARKET")))
    && (req.ordType == Ascii("limit") ==> Has(params, "type", Ascii("LIMIT")))
  }

  /** The parameters say the order: each value under its name, side and type in capitals, nothing twice. */
  ghost predicate SaysOrder(params: seq<Param>, req: OrderRequest) {
    && OncePerKey(params)
    && SaysHead(params, req)
    && HasIf(params, "price", Both(req.price, req.ordType == Ascii("limit")))
    && HasIf(params, "timeInForce", Both(Some(Ascii("GTC")), req.ordType == Ascii("limit")))
    && HasIf(params, "reduceOnly", Both(Some(Ascii("true")), req.reduceOnly))
    && HasIf(params, "newClientOrderId", req.clientOrderId)
  }

  ghost predicate SaysStamps(params: seq<Param>, timestampMs: nat, signature: Bytes) {
    && Has(params, "timestamp", DecimalText(timestampMs)) && Has(params, "recvWindow", Ascii("5000"))
    && Has(params, "signature", signature)
  }

  /** The place of a key in the order the parameters are written. */
  function Rank(key: Bytes): nat {
    if |key| < 3 then 99
    else if |key| == 6 then 0
    else if |key| == 4 && key[0] == 115 then 1
    else if |key| == 4 then 2
    else if |key| == 8 then 3
    else if |key| == 5 then 4
    else if |key| == 11 then 5
    else if |key| == 10 && key[2] == 100 then 6
    else if |key| == 16 then 7
    else if |key| == 9 && key[0] == 116 then 8
    else if |key| == 10 then 9
    else 10
  }

  predicate Ranked(params: seq<Param>, lo: nat, hi: nat) {
    && (forall i :: 0 <= i < |params| ==> lo <= Rank(params[i].key) < hi)
    && forall i, j :: 0 <= i < j < |params| ==> Rank(params[i].key) < Rank(params[j].key)
  }

  lemma RankedConcat(p: seq<Param>, q: seq<Param>, lo: nat, mid: nat, hi: nat)
    requires Ranked(p, lo, mid) && Ranked(q, mid, hi) && lo <= mid <= hi
    ensures Ranked(p + q, lo, hi)
  {
    hide Rank;
  }

  lemma RankedOnce(p: seq<Param>, lo: nat, hi: nat)
    requires Ranked(p, lo, hi)
    ensures OncePerKey(p)
  {
    hide Rank;
    forall i, j | 0 <= i < j < |p| ensures p[i].key != p[j].key {
      assert Rank(p[i].key) < Rank(p[j].key);
    }
  }

  lemma RankedLacks(p: seq<Param>, lo: nat, hi: nat, name: string)
    requires Ranked(p, lo, hi) && !(lo <= Rank(Ascii(name)) < hi)
    ensures Lacks(p, name)
  {
    hide Rank;
  }

  lemma Ranks()
    ensures Rank(Ascii("symbol")) == 0 && Rank(Ascii("side")) == 1 && Rank(Ascii("type")) == 2
    ensures Rank(Ascii("quantity")) == 3 && Rank(Ascii("price")) == 4 && Rank(Ascii("timeInForce")) == 5
    ensures Rank(Ascii("reduceOnly")) == 6 && Rank(Ascii("newClientOrderId")) == 7
    ensures Rank(Ascii("timestamp")) == 8 && Rank(Ascii("recvWindow")) == 9 && Rank(Ascii("signature")) == 10
  {
  }

  lemma PartsRanked(req: OrderRequest)
    ensures Ranked(BinanceHead(req), 0, 4) && Ranked(BinancePrice(req), 4, 6) && Ranked(BinanceTail(req), 6, 8)
  {
    Ranks();
    hide Rank, Ascii;
  }

  lemma StampsRanked(timestampMs: nat, signature: Bytes)
    ensures Ranked(Stamps(timestampMs, signature), 8, 11)
  {
    Ranks();
    hide Rank, Ascii, DecimalText;
  }

  lemma HeadSays(req: OrderRequest)
    ensures SaysHead(BinanceHead(req), req)
  {
    AsciiInjective("buy", "sell");
    AsciiInjective("market", "limit");
    hide Ascii;
    var p := BinanceHead(req);
    assert p[0] in p && p[1] in p && p[2] in p && p[3] in p;
  }

  lemma PriceSays(req: OrderRequest)
    requires req.price.Some? <==> req.ordType == LIMIT
    ensures var p := BinancePrice(req);
      && HasIf(p, "price", Both(req.price, req.ordType == Ascii("limit")))
      && HasIf(p, "timeInForce", Both(Some(Ascii("GTC")), req.ordType == Ascii("limit")))
  {
    hide Ascii;
    var p := BinancePrice(req);
    if req.price.Some? {
      assert p[0] in p && p[1] in p;
    }
  }

  lemma TailSays(req: OrderRequest)
    ensures var p := BinanceTail(req);
      && HasIf(p, "reduceOnly", Both(Some(Ascii("true")), req.reduceOnly))
      && HasIf(p, "newClientOrderId", req.clientOrderId)
  {
    AsciiInjective("reduceOnly", "newClientOrderId");
    hide Ascii;
    var p := BinanceTail(req);
    if req.reduceOnly {
      assert p[0] in p;
    }
    if req.clientOrderId.Some? {
      assert p[|p| - 1] in p;
    }
  }

  /** A parameter found in one part is found in the whole, and one absent from every part is absent. */
  lemma PartHas(a: seq<Param>, b: seq<Param>, c: seq<Param>, name: string, value: Option<Bytes>)
    requires HasIf(b, name, value) && Lacks(a, name) && Lacks(c, name)
    ensures HasIf(a + b + c, name, value)
  {
    if value.Some? {
      var i :| 0 <= i < |b| && b[i] == Param(Ascii(name), value.value);
      assert (a + b + c)[|a| + i] == b[i];
    }
  }

  /** What an accepted order's parameters say, whatever parameters with other names follow. */
  lemma OrderIsSaid(req: OrderRequest, more: seq<Param>)
    requires OrderFault(req).None? && Ranked(more, 8, 11)
    ensures SaysOrder(BinanceParams(req) + more, req)
  {
    PriceFollowsType(req);
    PartsRanked(req);
    hide OrderFault, BinanceHead, BinancePrice, BinanceTail, BinanceParams, Ascii, Ranked, SaysHead, HasIf, OncePerKey;
    SaidOnce(req, more);
    SaidHead(req, more);
    SaidPrice(req, more);
    SaidTail(req, more);
  }

  lemma SaidOnce(req: OrderRequest, more: seq<Param>)
    requires Ranked(BinanceHead(req), 0, 4) && Ranked(BinancePrice(req), 4, 6) && Ranked(BinanceTail(req), 6, 8)
    requires Ranked(more, 8, 11)
    ensures OncePerKey(BinanceParams(req) + more)
  {
    hide BinanceHead, BinancePrice, BinanceTail, Rank, Ranked, OncePerKey;
    var h, p, t := BinanceHead(req), BinancePrice(req), BinanceTail(req);
    RankedConcat(h, p, 0, 4, 6);
    RankedConcat(h + p, t, 0, 6, 8);
    RankedConcat(h + p + t, more, 0, 8, 11);
    RankedOnce(h + p + t + more, 0, 11);
  }

  lemma SaidHead(req: OrderRequest, more: seq<Param>)
    ensures SaysHead(BinanceParams(req) + more, req)
  {
    HeadSays(req);
    hide BinanceHead, BinancePrice, BinanceTail, SaysHead;
    var h, p, t := BinanceHead(req), BinancePrice(req), BinanceTail(req);
    HeadInWhole(h, p + (t + more), req);
    ConcatAssoc(h + p, t, more);
    ConcatAssoc(h, p, t + more);
  }

  lemma SaidPrice(req: OrderRequest, more: seq<Param>)
    requires req.price.Some? <==> req.ordType == LIMIT
    requires Ranked(BinanceHead(req), 0, 4) && Ranked(BinanceTail(req), 6, 8) && Ranked(more, 8, 11)
    ensures HasIf(BinanceParams(req) + more, "price", Both(req.price, req.ordType == Ascii("limit")))
    ensures HasIf(BinanceParams(req) + more, "timeInForce", Both(Some(Ascii("GTC")), req.ordType == Ascii("limit")))
  {
    PriceSays(req);
    hide BinanceHead, BinancePrice, BinanceTail, Rank, Ranked, HasIf, Ascii;
    var h, p, t := BinanceHead(req), BinancePrice(req), BinanceTail(req);
    RankedConcat(t, more, 6, 8, 11);
    SaidInParts(h, p, t + more, req);
    ConcatAssoc(h + p, t, more);
  }

  lemma SaidTail(req: OrderRequest, more: seq<Param>)
    requires Ranked(BinanceHead(req), 0, 4) && Ranked(BinancePrice(req), 4, 6) && Ranked(more, 8, 11)
    ensures HasIf(BinanceParams(req) + more, "reduceOnly", Both(Some(Ascii("true")), req.reduceOnly))
    ensures HasIf(BinanceParams(req) + more, "newClientOrderId", req.clientOrderId)
  {
    TailSays(req);
    hide BinanceHead, BinancePrice, BinanceTail, Rank, Ranked, HasIf, Ascii;
    RankedConcat(BinanceHead(req), BinancePrice(req), 0, 4, 6);
    TailInParts(BinanceHead(req) + BinancePrice(req), BinanceTail(req), more, req);
  }

  lemma TailInParts(a: seq<Param>, t: seq<Param>, more: seq<Param>, req: OrderRequest)
    requires Ranked(a, 0, 6) && Ranked(more, 8, 11)
    requires HasIf(t, "reduceOnly", Both(Some(Ascii("true")), req.reduceOnly))
    requires HasIf(t, "newClientOrderId", req.clientOrderId)
    ensures HasIf(a + t + more, "reduceOnly", Both(Some(Ascii("true")), req.reduceOnly))
    ensures HasIf(a + t + more, "newClientOrderId", req.clientOrderId)
  {
    Ranks();
    hide Ascii, Rank, Ranked, HasIf;
    RankedLacks(a, 0, 6, "reduceOnly");
    RankedLacks(more, 8, 11, "reduceOnly");
    PartHas(a, t, more, "reduceOnly", Both(Some(Ascii("true")), req.reduceOnly));
    RankedLacks(a, 0, 6, "newClientOrderId");
    RankedLacks(more, 8, 11, "newClientOrderId");
    PartHas(a, t, more, "newClientOrderId", req.clientOrderId);
  }

  lemma HeadInWhole(h: seq<Param>, rest: seq<Param>, req: OrderRequest)
    requires SaysHead(h, req)
    ensures SaysHead(h + rest, req)
  {
    hide Ascii;
    assert forall x :: x in h ==> x in h + rest;
  }

  lemma SaidInParts(h: seq<Param>, p: seq<Param>, rest: seq<Param>, req: OrderRequest)
    requires Ranked(h, 0, 4) && Ranked(rest, 6, 11)
    requires HasIf(p, "price", Both(req.price, req.ordType == Ascii("limit")))
    requires HasIf(p, "timeInForce", Both(Some(Ascii("GTC")), req.ordType == Ascii("limit")))
    ensures HasIf(h + p + rest, "price", Both(req.price, req.ordType == Ascii("limit")))
    ensures HasIf(h + p + rest, "timeInForce", Both(Some(Ascii("GTC")), req.ordType == Ascii("limit")))
  {
    Ranks();
    hide Ascii, Rank, Ranked, HasIf;
    var limit := req.ordType == Ascii("limit");
    RankedLacks(h, 0, 4, "price");
    RankedLacks(rest, 6, 11, "price");
    PartHas(h, p, rest, "price", Both(req.price, limit));
    RankedLacks(h, 0, 4, "timeInForce");
    RankedLacks(rest, 6, 11, "timeInForce");
    PartHas(h, p, rest, "timeInForce", Both(Some(Ascii("GTC")), limit));
  }

  lemma KeysAreOrders(req: OrderRequest)
    ensures OnlyKeys(BinanceParams(req), ORDER_KEYS)
  {
    hide Ascii;
    var p, n := BinanceParams(req), ORDER_KEYS;
    assert n[0] == "symbol" && n[1] == "side" && n[2] == "type" && n[3] == "quantity" && n[4] == "price";
    assert n[5] == "timeInForce" && n[6] == "reduceOnly" && n[7] == "newClientOrderId";
  }

  lemma KeysAreStamps(timestampMs: nat, signature: Bytes)
    ensures OnlyKeys(Stamps(timestampMs, signature), STAMP_KEYS)
    ensures SaysStamps(Stamps(timestampMs, signature), timestampMs, signature)
  {
    hide Ascii, DecimalText;
    var p, n := Stamps(timestampMs, signature), STAMP_KEYS;
    assert n[0] == "timestamp" && n[1] == "recvWindow" && n[2] == "signature";
    assert p[0] in p && p[1] in p && p[2] in p;
  }

  lemma OnlyKeysConcat(p: seq<Param>, ns: seq<string>, q: seq<Param>, ms: seq<string>)
    requires OnlyKeys(p, ns) && OnlyKeys(q, ms)
    ensures OnlyKeys(p + q, ns + ms)
  {
    hide Named;
    forall i | 0 <= i < |p + q| ensures Named((p + q)[i].key, ns + ms) {
      NamedInEither((p + q)[i].key, ns, ms);
    }
  }

  lemma NamedInEither(key: Bytes, ns: seq<string>, ms: seq<string>)
    ensures Named(key, ns) || Named(key, ms) ==> Named(key, ns + ms)
  {
    hide Ascii;
    var names := ns + ms;
    if Named(key, ns) {
      var j :| 0 <= j < |ns| && key == Ascii(ns[j]);
      assert names[j] == ns[j];
    } else if Named(key, ms) {
      var j :| 0 <= j < |ms| && key == Ascii(ms[j]);
      assert names[|ns| + j] == ms[j];
    }
  }

  /** A value is safe exactly when it has letters, digits, `-`, `_` and `.` only, and at least one. */
  lemma SafeValueMeans(v: Bytes)
    ensures IsSafeValue(v) <==>
      && |v| > 0
      && forall i :: 0 <= i < |v| ==>
           || 'A' as int <= v[i] <= 'Z' as int || 'a' as int <= v[i] <= 'z' as int
           || '0' as int <= v[i] <= '9' as int
           || v[i] == '-' as int || v[i] == '_' as int || v[i] == '.' as int
  {
  }

  /** Which orders the builders accept: market without a price or limit with one, of either side, with safe values. */
  lemma OrderAcceptedExactly(req: OrderRequest)
    ensures OrderFault(req).None? <==>
      && IsSafeValue(req.symbol) && IsSafeValue(req.qty)
      && (req.side == Ascii("buy") || req.side == Ascii("sell"))
      && ((req.ordType == Ascii("market") && req.price.None?)
          || (req.ordType == Ascii("limit") && req.price.Some? && IsSafeValue(req.price.value)))
      && (req.clientOrderId.Some? ==> IsSafeValue(req.clientOrderId.value))
  {
    AsciiInjective("market", "limit");
    AsciiInjective("market", "fok");
    AsciiInjective("market", "ioc");
    AsciiInjective("market", "post_only");
    AsciiInjective("limit", "fok");
    AsciiInjective("limit", "ioc");
    AsciiInjective("limit", "post_only");
    hide IsSafeValue, Ascii;
  }

  /** The query of an accepted order, read by name: the order and nothing else. */
  lemma BinanceQuerySays(req: OrderRequest)
    requires OrderFault(req).None?
    ensures var read := ReadForm(FormEncode(BinanceParams(req)));
      SaysOrder(read, req) && OnlyKeys(read, ORDER_KEYS)
  {
    hide OrderFault, SaysOrder, OnlyKeys, FormEncode, BinanceParams, ReadForm;
    BinanceQueryIsUnambiguous(req, req);
    OrderIsSaid(req, []);
    KeysAreOrders(req);
    assert BinanceParams(req) + [] == BinanceParams(req);
  }

  /** With the stamps: the order, the clock, the window and the signature, and nothing else. */
  lemma StampedOrderSays(req: OrderRequest, timestampMs: nat, signature: Bytes)
    requires OrderFault(req).None?
    ensures var read := BinanceParams(req) + Stamps(timestampMs, signature);
      && SaysOrder(read, req) && SaysStamps(read, timestampMs, signature)
      && OnlyKeys(read, ORDER_KEYS + STAMP_KEYS)
  {
    hide OrderFault, SaysOrder, OnlyKeys, BinanceParams, Stamps, Ascii, DecimalText;
    StampsRanked(timestampMs, signature);
    OrderIsSaid(req, Stamps(timestampMs, signature));
    KeysAreOrders(req);
    KeysAreStamps(timestampMs, signature);
    OnlyKeysConcat(BinanceParams(req), ORDER_KEYS, Stamps(timestampMs, signature), STAMP_KEYS);
  }

  /** The gateway accepts side and type in any case. */
  function NormalizeCase(req: OrderRequest): OrderRequest {
    req.(side := Lowercase(req.side), ordType := Lowercase(req.ordType))
  }

  /** A request that passes as it stands is left as it is. */
  lemma LowercaseStays(req: OrderRequest)
    requires OrderFault(req).None?
    ensures NormalizeCase(req) == req
  {
    HeadDecided(req);
    hide OrderFault, IsSafeValue;
    LiteralIsLowercase("buy");
    LiteralIsLowercase("sell");
    LiteralIsLowercase("market");
    LiteralIsLowercase("limit");
  }

  lemma LiteralIsLowercase(s: string)
    requires forall i :: 0 <= i < |s| ==> 'a' <= s[i] <= 'z'
    ensures Lowercase(Ascii(s)) == Ascii(s)
  {
  }

  /**
   An order from end to end: the gateway lowers its case, the enclave builds and signs the query, the gateway takes it
   with the enclave's headers. Only a faulty request is refused; the string sent is the signed one with its signature,
   and the venue splits it into the request's parameters, the clock, the window and the signature, and nothing else.
   */
  method SendBinanceOrder(sign: Bytes -> Bytes, key: Bytes, timestampMs: nat, asked: OrderRequest)
    returns (r: Result<Bytes, OrderError>, headers: HeaderMap)
    requires forall s :: IsHex(sign(s))
    ensures r.Err? <==> OrderFault(NormalizeCase(asked)).Some?
    ensures r.Err? ==> r.error == OrderFault(NormalizeCase(asked)).value
    ensures r.Ok? ==>
      var params := BinanceParams(NormalizeCase(asked));
      var signed := SignedString(FormEncode(params), timestampMs, []);
      && r.value == WithSignature(sign, signed)
      && ReadForm(r.value) == params + Stamps(timestampMs, sign(signed))
      && headers.fields == map["X-MBX-APIKEY" := key]
    ensures r.Ok? ==>
      var query := FormEncode(BinanceParams(NormalizeCase(asked)));
      var read, signature := ReadForm(r.value), sign(SignedString(query, timestampMs, []));
      && SaysOrder(read, NormalizeCase(asked)) && SaysStamps(read, timestampMs, signature)
      && OnlyKeys(read, ORDER_KEYS + STAMP_KEYS)
  {
    hide OrderFault, FormEncode, BinanceParams, IsHex, SignedString, WithSignature, ReadForm, SignedQs;
    hide NormalizeCase, Ascii, DecimalText, SaysOrder, SaysStamps, OnlyKeys, Stamps;
    var req := NormalizeCase(asked);
    var query := BuildBinanceOrderQuery(req);
    headers := new HeaderMap(map[]);
    if query.Err? {
      return Err(query.error), headers;
    }
    headers := new HeaderMap(ComputeBinanceHeaders(sign, key, timestampMs, query.value, []));
    BinanceParamsPlain(req);
    PlainQueryGoesOut(sign, key, timestampMs, BinanceParams(req), [], []);
    StampedOrderSays(req, timestampMs, sign(SignedString(query.value, timestampMs, [])));
    var sent := BuildBinanceSignedQs(query.value, headers);
    r := Ok(sent.value);
  }
}
