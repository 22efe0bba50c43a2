/**
 canonical-v1: the RFC 8785 printer with numbers forbidden. A parser undoes it, so two values print to the same bytes
 exactly when they are equal up to the order of object keys.
 */
module Json {
  import opened Wrappers
  import opened Lex
  import opened Unicode
  import opened Text

  datatype Json =
    | Null
    | Bool(b: bool)
    | Number
    | String(s: Str)
    | Array(items: seq<Json>)
    | Object(fields: seq<Field>)

  /** An entry of an object, in insertion order. */
  datatype Field = Field(key: Str, value: Json)

  const NULL: Bytes := [110, 117, 108, 108]
  const TRUE: Bytes := [116, 114, 117, 101]
  const FALSE: Bytes := [102, 97, 108, 115, 101]
  const QUOTE: byte := 34
  const COMMA: byte := 44
  const COLON: byte := 58
  const BACKSLASH: byte := 92
  const OPEN_BRACKET: byte := 91
  const CLOSE_BRACKET: byte := 93
  const OPEN_BRACE: byte := 123
  const CLOSE_BRACE: byte := 125

  predicate NumberFree(v: Json) {
    match v
    case Number => false
    case Array(items) => forall i :: 0 <= i < |items| ==> NumberFree(items[i])
    case Object(fields) => forall i :: 0 <= i < |fields| ==> NumberFree(fields[i].value)
    case _ => true
  }

  /** No object at any level repeats a key: what the strict parser in front of the printer guarantees. */
  predicate DistinctKeys(v: Json) {
    match v
    case Array(items) => forall i :: 0 <= i < |items| ==> DistinctKeys(items[i])
    case Object(fields) =>
      && KeysDiffer(fields)
      && forall i :: 0 <= i < |fields| ==> DistinctKeys(fields[i].value)
    case _ => true
  }

  predicate KeysDiffer(fields: seq<Field>) {
    forall i, j :: 0 <= i < j < |fields| ==> fields[i].key != fields[j].key
  }

  /** Equal up to the order of object keys, at every level. */
  predicate Same(v: Json, w: Json)
    decreases v, 3
  {
    match (v, w)
    case (Array(a), Array(b)) => |a| == |b| && forall i :: 0 <= i < |a| ==> Same(a[i], b[i])
    case (Object(f), Object(g)) => SameFields(f, g)
    case _ => v == w
  }

  /** Each entry on either side has an equal one on the other. */
  predicate SameFields(f: seq<Field>, g: seq<Field>)
    decreases f, 2
  {
    Covers(f, g) && CoveredBy(f, g)
  }

  predicate Covers(f: seq<Field>, g: seq<Field>)
    decreases f, 1
  {
    forall j :: 0 <= j < |g| ==> exists i :: 0 <= i < |f| && SameField(f[i], g[j])
  }

  predicate CoveredBy(f: seq<Field>, g: seq<Field>)
    decreases f, 1
  {
    forall i :: 0 <= i < |f| ==> exists j :: 0 <= j < |g| && SameField(f[i], g[j])
  }

  predicate SameField(f: Field, g: Field)
    decreases f, 0
  {
    f.key == g.key && Same(f.value, g.value)
  }

  // ---------------------------------------------------------------- strings

  function HexDigit(n: int): byte
    requires 0 <= n < 16
  {
    if n < 10 then 48 + n else 87 + n
  }

  function Escape(c: scalar): (e: Bytes)
    ensures |e| > 0 && e[0] != QUOTE
  {
    if c == 34 || c == 92 then [BACKSLASH, c]
    else if c == 8 then [BACKSLASH, 98]
    else if c == 9 then [BACKSLASH, 116]
    else if c == 10 then [BACKSLASH, 110]
    else if c == 12 then [BACKSLASH, 102]
    else if c == 13 then [BACKSLASH, 114]
    else if c < 32 then [BACKSLASH, 117, 48, 48, HexDigit(c / 16), HexDigit(c % 16)]
    else Utf8(c)
  }

  function EscapeAll(s: Str): Bytes {
    if |s| == 0 then [] else Escape(s[0]) + EscapeAll(s[1..])
  }

  function Quoted(s: Str): Bytes {
    [QUOTE] + EscapeAll(s) + [QUOTE]
  }

  function HexValue(b: byte): Option<int> {
    if 48 <= b <= 57 then Some(b - 48)
    else if 97 <= b <= 102 then Some(b - 87)
    else if 65 <= b <= 70 then Some(b - 55)
    else None
  }

  /** The scalar named by a one-letter escape. */
  function ShortEscape(b: byte): Option<scalar> {
    if b == 34 || b == 92 || b == 47 then Some(b)
    else if b == 98 then Some(8)
    else if b == 116 then Some(9)
    else if b == 110 then Some(10)
    else if b == 102 then Some(12)
    else if b == 114 then Some(13)
    else None
  }

  function ReadHex4(s: Bytes): Option<int>
    requires |s| >= 4
  {
    var a, b, c, d := HexValue(s[0]), HexValue(s[1]), HexValue(s[2]), HexValue(s[3]);
    if a.None? || b.None? || c.None? || d.None? then None
    else Some(a.value * 4096 + b.value * 256 + c.value * 16 + d.value)
  }

  /** Read one possibly escaped character. */
  function ReadChar(s: Bytes): (r: Option<(scalar, Bytes)>)
    ensures r.Some? ==> |r.value.1| < |s|
  {
    if |s| == 0 then None
    else if s[0] != BACKSLASH then ReadUtf8(s)
    else if |s| >= 2 && ShortEscape(s[1]).Some? then Some((ShortEscape(s[1]).value, s[2..]))
    else if |s| >= 6 && s[1] == 117 && ReadHex4(s[2..]).Some? && IsScalar(ReadHex4(s[2..]).value) then
      Some((ReadHex4(s[2..]).value, s[6..]))
    else None
  }

  /** Read characters up to the closing quote. */
  function ReadChars(s: Bytes): (r: Option<(Str, Bytes)>)
    ensures r.Some? ==> |r.value.1| < |s|
  {
    if |s| > 0 && s[0] == QUOTE then Some(([], s[1..]))
    else
      match ReadChar(s)
      case None => None
      case Some((c, rest)) =>
        match ReadChars(rest)
        case None => None
        case Some((cs, rest')) => Some(([c] + cs, rest'))
  }

  lemma EscapeReadsBack(c: scalar, rest: Bytes)
    ensures ReadChar(Escape(c) + rest) == Some((c, rest))
  {
    var s := Escape(c) + rest;
    if c >= 32 && c != 34 && c != 92 {
      Utf8ReadsBack(c, rest);
    } else if |Escape(c)| == 2 {
      assert s[2..] == rest;
    } else {
      assert s[2..][..4] == [48, 48, HexDigit(c / 16), HexDigit(c % 16)];
      assert s[6..] == rest;
    }
  }

  /** A spelling of one character inside a JSON string: no raw control character and no bare quote. */
  predicate Spells(e: Bytes, c: scalar) {
    |e| > 0 && e[0] >= 32 && e[0] != QUOTE && ReadChar(e) == Some((c, []))
  }

  /** A spelling by code number uses lower-case digits. */
  predicate LowerHex(e: Bytes) {
    |e| == 6 && e[0] == BACKSLASH ==> forall i :: 2 <= i < 6 ==> !(65 <= e[i] <= 70)
  }

  /** Of all spellings of a character RFC 8785 wants the shortest, in lower case: that one is printed, and no other. */
  lemma EscapeIsCanonical(c: scalar, e: Bytes)
    requires Spells(e, c)
    ensures Spells(Escape(c), c) && LowerHex(Escape(c))
    ensures |Escape(c)| <= |e|
    ensures |e| == |Escape(c)| && LowerHex(e) ==> e == Escape(c)
  {
    EscapeSpells(c);
    if e[0] != BACKSLASH {
      RawSpelling(c, e);
    } else if |e| == 2 {
      assert ShortEscape(e[1]) == Some(c);
    } else {
      NumberSpelling(c, e);
    }
  }

  lemma EscapeSpells(c: scalar)
    ensures Spells(Escape(c), c) && LowerHex(Escape(c))
  {
    EscapeReadsBack(c, []);
    assert Escape(c) + [] == Escape(c);
    hide ReadChar;
  }

  lemma RawSpelling(c: scalar, e: Bytes)
    requires Spells(e, c) && e[0] != BACKSLASH
    ensures e == Escape(c)
  {
    assert e == Utf8(c) + [] == Utf8(c);
  }

  lemma NumberSpelling(c: scalar, e: Bytes)
    requires Spells(e, c) && e[0] == BACKSLASH && |e| != 2
    ensures |e| == 6 && |Escape(c)| <= 6
    ensures |Escape(c)| == 6 && LowerHex(e) ==> e == Escape(c)
  {
    assert |e| == 6 && e[1] == 117 && ReadHex4(e[2..]) == Some(c as int);
    if |Escape(c)| == 6 && LowerHex(e) {
      var h := e[2..];
      assert forall i :: 0 <= i < 4 ==> h[i] == e[i + 2];
      SmallHex(h, c);
      assert e == [BACKSLASH, 117, h[0], h[1], h[2], h[3]];
    }
  }

  lemma SmallHex(h: Bytes, c: int)
    requires |h| == 4 && 0 <= c < 32 && ReadHex4(h) == Some(c)
    requires forall i :: 0 <= i < 4 ==> !(65 <= h[i] <= 70)
    ensures h[0] == 48 && h[1] == 48 && h[2] == HexDigit(c / 16) && h[3] == HexDigit(c % 16)
  {
    var a, b, d, e := HexValue(h[0]).value, HexValue(h[1]).value, HexValue(h[2]).value, HexValue(h[3]).value;
    assert a == 0 && b == 0 && d == c / 16 && e == c % 16;
  }

  /** The words and punctuation of JSON. */
  lemma Words()
    ensures NULL == Ascii("null") && TRUE == Ascii("true") && FALSE == Ascii("false")
    ensures [QUOTE, COMMA, COLON] == Ascii("\",:")
    ensures [BACKSLASH, OPEN_BRACKET, CLOSE_BRACKET, OPEN_BRACE, CLOSE_BRACE] == Ascii("\\[]{}")
  {
  }

  lemma {:induction false} CharsReadBack(t: Str, rest: Bytes)
    ensures ReadChars(EscapeAll(t) + [QUOTE] + rest) == Some((t, rest))
  {
    hide ReadChar, Escape;
    var s := EscapeAll(t) + [QUOTE] + rest;
    if |t| == 0 {
      assert s[1..] == rest;
    } else {
      var s' := EscapeAll(t[1..]) + [QUOTE] + rest;
      assert s == Escape(t[0]) + s';
      EscapeReadsBack(t[0], s');
      CharsReadBack(t[1..], rest);
      assert t == [t[0]] + t[1..];
    }
  }

  // ---------------------------------------------------------------- printing

  /** Print fields in the order given. */
  function Print(v: Json): Bytes {
    match v
    case Null => NULL
    case Bool(b) => if b then TRUE else FALSE
    case Number => []
    case String(s) => Quoted(s)
    case Array(items) => [OPEN_BRACKET] + PrintItems(items, true) + [CLOSE_BRACKET]
    case Object(fields) => [OPEN_BRACE] + PrintFields(fields, true) + [CLOSE_BRACE]
  }

  function PrintItems(items: seq<Json>, first: bool): Bytes {
    if |items| == 0 then []
    else (if first then [] else [COMMA]) + Print(items[0]) + PrintItems(items[1..], false)
  }

  function PrintField(f: Field): Bytes {
    Quoted(f.key) + [COLON] + Print(f.value)
  }

  function PrintFields(fields: seq<Field>, first: bool): Bytes {
    if |fields| == 0 then []
    else (if first then [] else [COMMA]) + PrintField(fields[0]) + PrintFields(fields[1..], false)
  }

  // ---------------------------------------------------------------- parsing

  function Parse(s: Bytes): (r: Option<(Json, Bytes)>)
    ensures r.Some? ==> |r.value.1| < |s|
    decreases |s|, 0
  {
    if NULL <= s then Some((Null, s[4..]))
    else if TRUE <= s then Some((Bool(true), s[4..]))
    else if FALSE <= s then Some((Bool(false), s[5..]))
    else if |s| == 0 then None
    else if s[0] == QUOTE then
      match ReadChars(s[1..])
      case None => None
      case Some((t, rest)) => Some((String(t), rest))
    else if s[0] == OPEN_BRACKET then
      match ParseItems(s[1..], true)
      case None => None
      case Some((items, rest)) => Some((Array(items), rest))
    else if s[0] == OPEN_BRACE then
      match ParseFields(s[1..], true)
      case None => None
      case Some((fields, rest)) => Some((Object(fields), rest))
    else None
  }

  function ParseItems(s: Bytes, first: bool): (r: Option<(seq<Json>, Bytes)>)
    ensures r.Some? ==> |r.value.1| < |s|
    decreases |s|, 1
  {
    if |s| == 0 then None
    else if s[0] == CLOSE_BRACKET then Some(([], s[1..]))
    else if !first && s[0] != COMMA then None
    else
      match Parse(if first then s else s[1..])
      case None => None
      case Some((v, rest)) =>
        match ParseItems(rest, false)
        case None => None
        case Some((vs, rest')) => Some(([v] + vs, rest'))
  }

  function ParseFields(s: Bytes, first: bool): (r: Option<(seq<Field>, Bytes)>)
    ensures r.Some? ==> |r.value.1| < |s|
    decreases |s|, 1
  {
    if |s| == 0 then None
    else if s[0] == CLOSE_BRACE then Some(([], s[1..]))
    else if !first && s[0] != COMMA then None
    else
      match ParseField(if first then s else s[1..])
      case None => None
      case Some((f, rest)) =>
        match ParseFields(rest, false)
        case None => None
        case Some((fs, rest')) => Some(([f] + fs, rest'))
  }

  function ParseField(s: Bytes): (r: Option<(Field, Bytes)>)
    ensures r.Some? ==> |r.value.1| < |s|
    decreases |s|, 0
  {
    if |s| == 0 || s[0] != QUOTE then None
    else
      match ReadChars(s[1..])
      case None => None
      case Some((key, rest)) =>
        if |rest| == 0 || rest[0] != COLON then None
        else
          match Parse(rest[1..])
          case None => None
          case Some((v, rest')) => Some((Field(key, v), rest'))
  }

  lemma PrintStarts(v: Json)
    requires NumberFree(v)
    ensures |Print(v)| > 0 && Print(v)[0] in {110, 116, 102, QUOTE, OPEN_BRACKET, OPEN_BRACE}
  {
  }

  /** The parser undoes the printer, whatever follows the printed value. */
  lemma {:induction false} ParsePrint(v: Json, rest: Bytes)
    requires NumberFree(v)
    ensures Parse(Print(v) + rest) == Some((v, rest))
    decreases v, 1
  {
    hide Parse, ParseItems, ParseFields, PrintItems, PrintFields, Quoted;
    match v
    case Null => LiteralsParse(rest);
    case Bool(b) => LiteralsParse(rest);
    case String(t) => QuotedParses(t, rest);
    case Array(items) =>
      ItemsParse(items, true, rest);
      ArrayParses(PrintItems(items, true) + [CLOSE_BRACKET] + rest);
      Enclosed([OPEN_BRACKET], PrintItems(items, true), [CLOSE_BRACKET], rest);
    case Object(fields) =>
      FieldsParse(fields, true, rest);
      ObjectParses(PrintFields(fields, true) + [CLOSE_BRACE] + rest);
      Enclosed([OPEN_BRACE], PrintFields(fields, true), [CLOSE_BRACE], rest);
  }

  lemma Enclosed(open: Bytes, body: Bytes, close: Bytes, rest: Bytes)
    ensures open + body + close + rest == open + (body + close + rest)
  {
    ConcatAssoc(open, body, close);
    ConcatAssoc(open, body + close, rest);
  }

  lemma LiteralsParse(rest: Bytes)
    ensures Parse(NULL + rest) == Some((Null, rest))
    ensures Parse(TRUE + rest) == Some((Bool(true), rest))
    ensures Parse(FALSE + rest) == Some((Bool(false), rest))
  {
    var n, t, f := NULL + rest, TRUE + rest, FALSE + rest;
    assert n[4..] == rest && t[4..] == rest && f[5..] == rest;
    assert n[0] == 110 && t[0] == 116 && f[0] == 102;
  }

  lemma QuotedParses(t: Str, rest: Bytes)
    ensures Parse(Quoted(t) + rest) == Some((String(t), rest))
  {
    hide ReadChars, EscapeAll;
    var s := Quoted(t) + rest;
    assert s[0] == QUOTE;
    assert s[1..] == EscapeAll(t) + [QUOTE] + rest;
    CharsReadBack(t, rest);
  }

  lemma ArrayParses(body: Bytes)
    requires ParseItems(body, true).Some?
    ensures Parse([OPEN_BRACKET] + body)
         == Some((Array(ParseItems(body, true).value.0), ParseItems(body, true).value.1))
  {
    hide ParseItems;
    var s := [OPEN_BRACKET] + body;
    assert s[0] == OPEN_BRACKET && s[1..] == body;
  }

  lemma ObjectParses(body: Bytes)
    requires ParseFields(body, true).Some?
    ensures Parse([OPEN_BRACE] + body)
         == Some((Object(ParseFields(body, true).value.0), ParseFields(body, true).value.1))
  {
    hide ParseFields;
    var s := [OPEN_BRACE] + body;
    assert s[0] == OPEN_BRACE && s[1..] == body;
  }

  lemma {:induction false} ItemsParse(items: seq<Json>, first: bool, rest: Bytes)
    requires forall i :: 0 <= i < |items| ==> NumberFree(items[i])
    ensures ParseItems(PrintItems(items, first) + [CLOSE_BRACKET] + rest, first) == Some((items, rest))
    decreases items, 0
  {
    hide Parse, Print;
    var s := PrintItems(items, first) + [CLOSE_BRACKET] + rest;
    if |items| == 0 {
      assert s[1..] == rest;
    } else {
      var after := PrintItems(items[1..], false) + [CLOSE_BRACKET] + rest;
      PrintStarts(items[0]);
      assert s == (if first then [] else [COMMA]) + Print(items[0]) + after;
      assert (if first then s else s[1..]) == Print(items[0]) + after;
      assert s[0] == if first then Print(items[0])[0] else COMMA;
      ParsePrint(items[0], after);
      ItemsParse(items[1..], false, rest);
      assert items == [items[0]] + items[1..];
    }
  }

  lemma {:induction false} FieldsParse(fields: seq<Field>, first: bool, rest: Bytes)
    requires forall i :: 0 <= i < |fields| ==> NumberFree(fields[i].value)
    ensures ParseFields(PrintFields(fields, first) + [CLOSE_BRACE] + rest, first) == Some((fields, rest))
    decreases fields, 0
  {
    hide Parse, Print, ParseField, PrintField;
    var s := PrintFields(fields, first) + [CLOSE_BRACE] + rest;
    if |fields| == 0 {
      assert s[1..] == rest;
    } else {
      var after := PrintFields(fields[1..], false) + [CLOSE_BRACE] + rest;
      var p := PrintField(fields[0]);
      assert s == (if first then [] else [COMMA]) + p + after;
      assert (if first then s else s[1..]) == p + after;
      FieldParses(fields[0], after);
      assert s[0] == if first then p[0] else COMMA;
      FieldsParse(fields[1..], false, rest);
      assert fields == [fields[0]] + fields[1..];
    }
  }

  lemma {:induction false} FieldParses(f: Field, after: Bytes)
    requires NumberFree(f.value)
    ensures |PrintField(f)| > 0 && PrintField(f)[0] == QUOTE
    ensures ParseField(PrintField(f) + after) == Some((f, after))
    decreases f, 0
  {
    hide Parse, Print, ReadChars, EscapeAll;
    var s := PrintField(f) + after;
    var tail := [COLON] + Print(f.value) + after;
    assert s[1..] == EscapeAll(f.key) + [QUOTE] + tail;
    CharsReadBack(f.key, tail);
    assert tail[1..] == Print(f.value) + after;
    ParsePrint(f.value, after);
  }

  // ---------------------------------------------------------------- normal form

  predicate SortedFields(fields: seq<Field>) {
    forall i, j :: 0 <= i < j < |fields| ==> KeyLess(fields[i].key, fields[j].key)
  }

  function Insert(f: Field, fields: seq<Field>): (r: seq<Field>)
    ensures |r| == |fields| + 1
    ensures forall x :: x in r <==> x == f || x in fields
  {
    if |fields| == 0 || KeyLess(f.key, fields[0].key) then [f] + fields
    else
      var r := [fields[0]] + Insert(f, fields[1..]);
      assert forall x :: x in fields <==> x == fields[0] || x in fields[1..];
      r
  }

  /** Entries sorted by the UTF-16 order of their keys. */
  function SortFields(fields: seq<Field>): (r: seq<Field>)
    ensures |r| == |fields|
    ensures forall x :: x in r <==> x in fields
  {
    if |fields| == 0 then []
    else
      assert forall x :: x in fields <==> x == fields[0] || x in fields[1..];
      Insert(fields[0], SortFields(fields[1..]))
  }

  lemma {:induction false} InsertSorted(f: Field, fields: seq<Field>)
    requires SortedFields(fields) && forall g :: g in fields ==> g.key != f.key
    ensures SortedFields(Insert(f, fields))
  {
    hide KeyLess;
    if |fields| > 0 {
      KeyOrderIsTotal(f.key, fields[0].key);
      if KeyLess(f.key, fields[0].key) {
        forall j | 0 < j < |fields| ensures KeyLess(f.key, fields[j].key) {
          KeyLessTransitive(f.key, fields[0].key, fields[j].key);
        }
      } else {
        assert fields[0] in fields;
        InsertSorted(f, fields[1..]);
        var r := Insert(f, fields[1..]);
        forall j | 0 <= j < |r| ensures KeyLess(fields[0].key, r[j].key) {
          assert r[j] in r;
        }
      }
    }
  }

  lemma KeyLessTransitive(a: Str, b: Str, c: Str)
    requires KeyLess(a, b) && KeyLess(b, c)
    ensures KeyLess(a, c)
  {
    LessTransitive(Units(a), Units(b), Units(c));
  }

  lemma {:induction false} SortFieldsSorts(fields: seq<Field>)
    requires KeysDiffer(fields)
    ensures SortedFields(SortFields(fields))
  {
    if |fields| > 0 {
      SortFieldsSorts(fields[1..]);
      forall g | g in SortFields(fields[1..]) ensures g.key != fields[0].key {
        assert g in fields[1..];
      }
      InsertSorted(fields[0], SortFields(fields[1..]));
    }
  }

  function KeyUnits(fields: seq<Field>): (u: seq<seq<int>>)
    ensures |u| == |fields|
    ensures forall i :: 0 <= i < |u| ==> u[i] == Units(fields[i].key)
  {
    seq(|fields|, i requires 0 <= i < |fields| => Units(fields[i].key))
  }

  /** Sorted listings of the same entries are equal. */
  lemma SortedFieldsUnique(f: seq<Field>, g: seq<Field>)
    requires SortedFields(f) && SortedFields(g)
    requires forall x :: x in f <==> x in g
    ensures f == g
  {
    hide Units;
    KeysCarryOver(f, g);
    KeysCarryOver(g, f);
    StrictlySortedUnique(KeyUnits(f), KeyUnits(g));
    forall i | 0 <= i < |f| ensures f[i] == g[i] {
      assert f[i] in g;
      var j :| 0 <= j < |g| && g[j] == f[i];
      assert KeyUnits(f)[j] == KeyUnits(g)[j];
      LessIrreflexive(Units(f[i].key));
    }
  }

  lemma KeysCarryOver(f: seq<Field>, g: seq<Field>)
    requires forall x :: x in f ==> x in g
    ensures forall u :: u in KeyUnits(f) ==> u in KeyUnits(g)
  {
    forall u | u in KeyUnits(f) ensures u in KeyUnits(g) {
      var i :| 0 <= i < |f| && u == KeyUnits(f)[i];
      assert f[i] in g;
      var j :| 0 <= j < |g| && g[j] == f[i];
      assert KeyUnits(g)[j] == u;
    }
  }

  /** Sort the keys of every object. */
  function Normalize(v: Json): Json {
    match v
    case Array(items) => Array(NormalizeItems(items))
    case Object(fields) => Object(SortFields(NormalizeFields(fields)))
    case _ => v
  }

  function NormalizeItems(items: seq<Json>): (r: seq<Json>)
    ensures |r| == |items|
    ensures forall i :: 0 <= i < |items| ==> r[i] == Normalize(items[i])
  {
    if |items| == 0 then [] else [Normalize(items[0])] + NormalizeItems(items[1..])
  }

  function NormalizeField(f: Field): Field {
    Field(f.key, Normalize(f.value))
  }

  function NormalizeFields(fields: seq<Field>): (r: seq<Field>)
    ensures |r| == |fields|
    ensures forall i :: 0 <= i < |fields| ==> r[i] == NormalizeField(fields[i])
  {
    if |fields| == 0 then [] else [NormalizeField(fields[0])] + NormalizeFields(fields[1..])
  }

  lemma {:induction false} NormalizeKeepsNumberFree(v: Json)
    requires NumberFree(v)
    ensures NumberFree(Normalize(v))
  {
    match v
    case Array(items) =>
      forall i | 0 <= i < |items| ensures NumberFree(Normalize(items[i])) {
        NormalizeKeepsNumberFree(items[i]);
      }
    case Object(fields) =>
      var n := NormalizeFields(fields);
      forall x | x in n ensures NumberFree(x.value) {
        var i :| 0 <= i < |n| && n[i] == x;
        NormalizeKeepsNumberFree(fields[i].value);
      }
      var sorted := SortFields(n);
      assert forall i :: 0 <= i < |sorted| ==> sorted[i] in n;
    case _ =>
  }

  /** Values with the same normal form are equal up to key order. */
  lemma {:induction false} NormalFormDecides(v: Json, w: Json)
    requires Normalize(v) == Normalize(w)
    ensures Same(v, w)
    decreases v, 2
  {
    hide SortFields, SameFields;
    match (v, w)
    case (Array(a), Array(b)) =>
      forall i | 0 <= i < |a| ensures Same(a[i], b[i]) {
        assert NormalizeItems(a)[i] == NormalizeItems(b)[i];
        NormalFormDecides(a[i], b[i]);
      }
    case (Object(f), Object(g)) =>
      EntriesDecide(f, g);
    case _ =>
  }

  lemma {:induction false} EntriesDecide(f: seq<Field>, g: seq<Field>)
    requires SortFields(NormalizeFields(f)) == SortFields(NormalizeFields(g))
    ensures SameFields(f, g)
    decreases f, 1
  {
    hide SameField, SortFields, NormalizeField;
    var nf, ng := NormalizeFields(f), NormalizeFields(g);
    assert forall x :: x in nf <==> x in ng;
    assert CoveredBy(f, g) by {
      forall i | 0 <= i < |f| ensures exists j :: 0 <= j < |g| && SameField(f[i], g[j]) {
        assert nf[i] in ng;
        var j :| 0 <= j < |ng| && ng[j] == nf[i];
        EntryDecides(f[i], g[j]);
      }
    }
    assert Covers(f, g) by {
      forall j | 0 <= j < |g| ensures exists i :: 0 <= i < |f| && SameField(f[i], g[j]) {
        assert ng[j] in nf;
        var i :| 0 <= i < |nf| && nf[i] == ng[j];
        EntryDecides(f[i], g[j]);
      }
    }
  }

  lemma {:induction false} EntryDecides(f: Field, g: Field)
    requires NormalizeField(f) == NormalizeField(g)
    ensures SameField(f, g)
    decreases f, 0
  {
    hide Normalize, Same;
    NormalFormDecides(f.value, g.value);
  }

  /** Every value is its normal form up to key order. */
  lemma {:induction false} SameAsNormal(v: Json)
    ensures Same(v, Normalize(v))
    decreases v, 1
  {
    hide SortFields, SameFields;
    match v
    case Array(items) =>
      forall i | 0 <= i < |items| ensures Same(items[i], Normalize(items[i])) {
        SameAsNormal(items[i]);
      }
    case Object(fields) =>
      EntriesAsNormal(fields);
    case _ =>
  }

  lemma {:induction false} EntriesAsNormal(f: seq<Field>)
    ensures SameFields(f, SortFields(NormalizeFields(f)))
    decreases f, 0
  {
    var n, g := NormalizeFields(f), SortFields(NormalizeFields(f));
    forall i | 0 <= i < |f| ensures SameField(f[i], n[i]) {
      SameAsNormal(f[i].value);
    }
    hide SameField, SortFields, NormalizeField;
    assert CoveredBy(f, g) by {
      forall i | 0 <= i < |f| ensures exists j :: 0 <= j < |g| && SameField(f[i], g[j]) {
        assert n[i] in g;
        var j :| 0 <= j < |g| && g[j] == n[i];
      }
    }
    assert Covers(f, g) by {
      forall j | 0 <= j < |g| ensures exists i :: 0 <= i < |f| && SameField(f[i], g[j]) {
        assert g[j] in n;
        var i :| 0 <= i < |n| && n[i] == g[j];
      }
    }
  }

  /** Values equal up to key order have the same normal form. */
  lemma {:induction false} SameNormalForm(v: Json, w: Json)
    requires DistinctKeys(v) && DistinctKeys(w) && Same(v, w)
    ensures Normalize(v) == Normalize(w)
    decreases v, 2
  {
    hide SortFields, SameFields, NormalizeFields;
    match (v, w)
    case (Array(a), Array(b)) =>
      forall i | 0 <= i < |a| ensures Normalize(a[i]) == Normalize(b[i]) {
        SameNormalForm(a[i], b[i]);
      }
      assert NormalizeItems(a) == NormalizeItems(b);
    case (Object(f), Object(g)) =>
      SameSortedEntries(f, g);
    case _ =>
  }

  lemma {:induction false} SameSortedEntries(f: seq<Field>, g: seq<Field>)
    requires KeysDiffer(f) && KeysDiffer(g) && SameFields(f, g)
    requires forall i :: 0 <= i < |f| ==> DistinctKeys(f[i].value)
    requires forall j :: 0 <= j < |g| ==> DistinctKeys(g[j].value)
    ensures SortFields(NormalizeFields(f)) == SortFields(NormalizeFields(g))
    decreases f, 1
  {
    hide SortFields, Covers, CoveredBy, NormalizeField, DistinctKeys, KeysDiffer;
    var nf, ng := NormalizeFields(f), NormalizeFields(g);
    forall x | x in nf ensures x in ng {
      var i :| 0 <= i < |f| && nf[i] == x;
      var j := MatchRight(f, g, i);
      SameNormalEntry(f[i], g[j]);
      assert ng[j] == x;
    }
    forall x | x in ng ensures x in nf {
      var j :| 0 <= j < |g| && ng[j] == x;
      var i := MatchLeft(f, g, j);
      SameNormalEntry(f[i], g[j]);
      assert nf[i] == x;
    }
    NormalKeysDiffer(f);
    NormalKeysDiffer(g);
    SortedEntriesAgree(nf, ng);
  }

  lemma MatchRight(f: seq<Field>, g: seq<Field>, i: nat) returns (j: nat)
    requires CoveredBy(f, g) && i < |f|
    ensures j < |g| && SameField(f[i], g[j])
  {
    var x := f[i];
    var k :| 0 <= k < |g| && SameField(x, g[k]);
    j := k;
  }

  lemma MatchLeft(f: seq<Field>, g: seq<Field>, j: nat) returns (i: nat)
    requires Covers(f, g) && j < |g|
    ensures i < |f| && SameField(f[i], g[j])
  {
    var y := g[j];
    var k :| 0 <= k < |f| && SameField(f[k], y);
    i := k;
  }

  lemma SortedEntriesAgree(f: seq<Field>, g: seq<Field>)
    requires KeysDiffer(f) && KeysDiffer(g)
    requires forall x :: x in f <==> x in g
    ensures SortFields(f) == SortFields(g)
  {
    hide SortFields, SortedFields, KeysDiffer;
    SortFieldsSorts(f);
    SortFieldsSorts(g);
    SortedFieldsUnique(SortFields(f), SortFields(g));
  }

  lemma NormalKeysDiffer(f: seq<Field>)
    requires KeysDiffer(f)
    ensures KeysDiffer(NormalizeFields(f))
  {
  }

  lemma {:induction false} SameNormalEntry(f: Field, g: Field)
    requires DistinctKeys(f.value) && DistinctKeys(g.value) && SameField(f, g)
    ensures NormalizeField(f) == NormalizeField(g)
    decreases f, 0
  {
    hide Normalize, Same, DistinctKeys;
    SameNormalForm(f.value, g.value);
  }

  // ---------------------------------------------------------------- canonical-v1

  /** What canonical-v1 emits for a number-free value. */
  function CanonicalBytes(v: Json): Bytes {
    Print(Normalize(v))
  }

  /** Two values have the same canonical bytes exactly when they are equal up to key order at every level. */
  lemma CanonicalDecidesSame(v: Json, w: Json)
    requires NumberFree(v) && DistinctKeys(v) && NumberFree(w) && DistinctKeys(w)
    ensures CanonicalBytes(v) == CanonicalBytes(w) <==> Same(v, w)
  {
    if CanonicalBytes(v) == CanonicalBytes(w) {
      CanonicalParses(v);
      CanonicalParses(w);
      NormalFormDecides(v, w);
    }
    if Same(v, w) {
      SameNormalForm(v, w);
    }
  }

  /** A parser recovers the value, up to key order, from its canonical bytes. */
  lemma CanonicalParses(v: Json)
    requires NumberFree(v)
    ensures Parse(CanonicalBytes(v)) == Some((Normalize(v), []))
    ensures Same(v, Normalize(v))
  {
    hide Parse, Print, Normalize, Same;
    SameAsNormal(v);
    NormalizeKeepsNumberFree(v);
    ParsePrint(Normalize(v), []);
    assert CanonicalBytes(v) + [] == CanonicalBytes(v);
  }

  /** The printer's output buffer. */
  class Buffer {
    var data: Bytes

    constructor ()
      ensures data == []
    {
      data := [];
    }

    method Push(b: Bytes)
      modifies this
      ensures data == old(data) + b
    {
      data := data + b;
    }
  }

  method JcsString(s: Str, out: Buffer)
    modifies out
    ensures out.data == old(out.data) + Quoted(s)
  {
    hide Escape;
    out.Push([QUOTE]);
    for i := 0 to |s|
      invariant out.data + EscapeAll(s[i..]) == old(out.data) + [QUOTE] + EscapeAll(s)
    {
      ghost var before := out.data;
      out.Push(Escape(s[i]));
      assert s[i..][1..] == s[i + 1..];
      ConcatAssoc(before, Escape(s[i]), EscapeAll(s[i + 1..]));
    }
    assert out.data == old(out.data) + [QUOTE] + EscapeAll(s);
    out.Push([QUOTE]);
  }

  method CanonicalV1(v: Json) returns (r: Option<Bytes>)
    ensures r.Some? <==> NumberFree(v)
    ensures r.Some? ==> r.value == CanonicalBytes(v)
  {
    var out := new Buffer();
    var ok := CanonicalV1Into(v, out);
    r := if ok then Some(out.data) else None;
  }

  /** Appends the canonical form, or fails on the first number met. */
  method CanonicalV1Into(v: Json, out: Buffer) returns (ok: bool)
    modifies out
    ensures ok <==> NumberFree(v)
    ensures ok ==> out.data == old(out.data) + CanonicalBytes(v)
    decreases v, 1
  {
    match v
    case Null => out.Push(NULL); ok := true;
    case Bool(b) => out.Push(if b then TRUE else FALSE); ok := true;
    case Number => ok := false;
    case String(s) => JcsString(s, out); ok := true;
    case Array(items) => ok := ItemsInto(v, out);
    case Object(fields) => ok := FieldsInto(v, out);
  }

  method ItemsInto(v: Json, out: Buffer) returns (ok: bool)
    requires v.Array?
    modifies out
    ensures ok <==> NumberFree(v)
    ensures ok ==> out.data == old(out.data) + CanonicalBytes(v)
    decreases v, 0
  {
    hide Print, Normalize, NormalizeItems, PrintItems, NumberFree, CanonicalBytes;
    ghost var n := NormalizeItems(v.items);
    ghost var target := out.data + [OPEN_BRACKET] + PrintItems(n, true);
    out.Push([OPEN_BRACKET]);
    assert n[0..] == n;
    for i := 0 to |v.items|
      invariant forall k :: 0 <= k < i ==> NumberFree(v.items[k])
      invariant out.data + PrintItems(n[i..], i == 0) == target
    {
      ghost var before := out.data;
      if i > 0 {
        out.Push([COMMA]);
      }
      var good := CanonicalV1Into(v.items[i], out);
      if !good {
        NumberFreeArray(v.items);
        return false;
      }
      ItemsStep(before, v.items, i);
    }
    assert out.data == target by {
      NoItems(n[|n|..]);
    }
    out.Push([CLOSE_BRACKET]);
    PrintArray(v.items);
    NumberFreeArray(v.items);
    ok := true;
  }

  lemma NumberFreeArray(items: seq<Json>)
    ensures NumberFree(Array(items)) <==> forall i :: 0 <= i < |items| ==> NumberFree(items[i])
  {
  }

  lemma NoItems(items: seq<Json>)
    requires |items| == 0
    ensures PrintItems(items, true) == PrintItems(items, false) == []
  {
  }

  lemma FirstItem(items: seq<Json>, first: bool)
    requires |items| > 0
    ensures PrintItems(items, first)
         == (if first then [] else [COMMA]) + Print(items[0]) + PrintItems(items[1..], false)
  {
    hide Print;
  }

  lemma ItemsStep(before: Bytes, items: seq<Json>, i: nat)
    requires i < |items|
    ensures var n := NormalizeItems(items);
      before + PrintItems(n[i..], i == 0)
      == (if i == 0 then before else before + [COMMA]) + CanonicalBytes(items[i]) + PrintItems(n[i + 1..], false)
  {
    hide Print, Normalize, NormalizeItems, PrintItems;
    var n := NormalizeItems(items);
    assert n[i..][1..] == n[i + 1..] && n[i..][0] == n[i];
    var comma: Bytes := if i == 0 then [] else [COMMA];
    FirstItem(n[i..], i == 0);
    ConcatAssoc(before, comma + Print(n[i]), PrintItems(n[i + 1..], false));
    ConcatAssoc(before, comma, Print(n[i]));
    assert before + [] == before;
  }

  lemma PrintArray(items: seq<Json>)
    ensures CanonicalBytes(Array(items)) == [OPEN_BRACKET] + PrintItems(NormalizeItems(items), true) + [CLOSE_BRACKET]
  {
  }

  method FieldsInto(v: Json, out: Buffer) returns (ok: bool)
    requires v.Object?
    modifies out
    ensures ok <==> NumberFree(v)
    ensures ok ==> out.data == old(out.data) + CanonicalBytes(v)
    decreases v, 0
  {
    hide Print, Normalize, SortFields, Quoted, PrintFields, NormalizeFields, NumberFree, CanonicalBytes;
    // Sorting the entries by key stands for sorting the keys and looking each one up.
    var sorted := SortFields(v.fields);
    ghost var n := NormalizeFields(sorted);
    ghost var target := out.data + [OPEN_BRACE] + PrintFields(n, true);
    out.Push([OPEN_BRACE]);
    assert n[0..] == n;
    for i := 0 to |sorted|
      invariant forall k :: 0 <= k < i ==> NumberFree(sorted[k].value)
      invariant out.data + PrintFields(n[i..], i == 0) == target
    {
      ghost var before := out.data;
      if i > 0 {
        out.Push([COMMA]);
      }
      JcsString(sorted[i].key, out);
      out.Push([COLON]);
      assert sorted[i] in v.fields;
      var good := CanonicalV1Into(sorted[i].value, out);
      if !good {
        NumberInside(v.fields, sorted[i]);
        return false;
      }
      FieldsStep(before, sorted, i);
    }
    assert out.data == target by {
      NoFields(n[|n|..]);
    }
    out.Push([CLOSE_BRACE]);
    PrintObject(v.fields);
    AllNumberFree(v.fields, sorted);
    ok := true;
  }

  lemma NoFields(fields: seq<Field>)
    requires |fields| == 0
    ensures PrintFields(fields, true) == PrintFields(fields, false) == []
  {
  }

  lemma FieldsStep(before: Bytes, fields: seq<Field>, i: nat)
    requires i < |fields|
    ensures var n := NormalizeFields(fields);
      before + PrintFields(n[i..], i == 0)
      == (if i == 0 then before else before + [COMMA]) + Quoted(fields[i].key) + [COLON]
         + CanonicalBytes(fields[i].value) + PrintFields(n[i + 1..], false)
  {
    hide Print, Normalize, Quoted;
    var n := NormalizeFields(fields);
    assert n[i..][1..] == n[i + 1..];
    var comma: Bytes := if i == 0 then [] else [COMMA];
    ConcatAssoc(before, comma + PrintField(n[i]), PrintFields(n[i + 1..], false));
    ConcatAssoc(before, comma, PrintField(n[i]));
    ConcatAssoc(before + comma, Quoted(fields[i].key) + [COLON], Print(n[i].value));
    ConcatAssoc(before + comma, Quoted(fields[i].key), [COLON]);
    assert before + [] == before;
  }

  lemma NumberInside(fields: seq<Field>, f: Field)
    requires f in fields && !NumberFree(f.value)
    ensures !NumberFree(Object(fields))
  {
    var i :| 0 <= i < |fields| && fields[i] == f;
  }

  lemma AllNumberFree(fields: seq<Field>, sorted: seq<Field>)
    requires forall x :: x in fields ==> x in sorted
    requires forall k :: 0 <= k < |sorted| ==> NumberFree(sorted[k].value)
    ensures NumberFree(Object(fields))
  {
    forall i | 0 <= i < |fields| ensures NumberFree(fields[i].value) {
      assert fields[i] in sorted;
    }
  }

  lemma PrintObject(fields: seq<Field>)
    ensures CanonicalBytes(Object(fields))
         == [OPEN_BRACE] + PrintFields(NormalizeFields(SortFields(fields)), true) + [CLOSE_BRACE]
  {
    NormalizeCommutesWithSort(fields);
  }

  lemma {:induction false} NormalizeCommutesWithSort(fields: seq<Field>)
    ensures NormalizeFields(SortFields(fields)) == SortFields(NormalizeFields(fields))
  {
    hide NormalizeField;
    if |fields| > 0 {
      NormalizeCommutesWithSort(fields[1..]);
      NormalizeCommutesWithInsert(fields[0], SortFields(fields[1..]));
      assert NormalizeFields(fields)[1..] == NormalizeFields(fields[1..]);
    }
  }

  lemma {:induction false} NormalizeCommutesWithInsert(f: Field, fields: seq<Field>)
    ensures NormalizeFields(Insert(f, fields)) == Insert(NormalizeField(f), NormalizeFields(fields))
  {
    hide KeyLess, Normalize;
    var n := NormalizeFields(fields);
    if |fields| == 0 || KeyLess(f.key, fields[0].key) {
      assert Insert(NormalizeField(f), n) == [NormalizeField(f)] + n;
      assert NormalizeFields([f] + fields) == [NormalizeField(f)] + n;
    } else {
      NormalizeCommutesWithInsert(f, fields[1..]);
      assert n[1..] == NormalizeFields(fields[1..]);
      assert Insert(f, fields) == [fields[0]] + Insert(f, fields[1..]);
      assert NormalizeFields([fields[0]] + Insert(f, fields[1..]))
          == [NormalizeField(fields[0])] + NormalizeFields(Insert(f, fields[1..]));
    }
  }
}
