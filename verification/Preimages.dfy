/**
 Byte strings that are hashed or sealed: the request digest, the data-key cache key and the sealed identity. Each must
 determine what it stands for.
 */
module Preimages {
  import opened Wrappers
  import opened Digits
  import opened Lex
  import opened Listing
  import opened Text
  import J = Json
  import R = Registry

  // ---------------------------------------------------------------- length-prefixed fields

  /** A field with its length in eight big-endian bytes. */
  function Frame(f: Bytes): (b: Bytes)
    ensures |b| == 8 + |f|
  {
    BigEndian(|f|, 8) + f
  }

  function EncodeFields(fields: seq<Bytes>): Bytes {
    if |fields| == 0 then [] else Frame(fields[0]) + EncodeFields(fields[1..])
  }

  /** Lengths are 64-bit in the source. */
  predicate Sized(fields: seq<Bytes>) {
    forall i :: 0 <= i < |fields| ==> |fields[i]| < U64_LIMIT
  }

  /** A frame is the field's length in eight bytes, most significant first, and the field. */
  lemma FrameLayout(f: Bytes)
    requires |f| < U64_LIMIT
    ensures ValueBE(256, Frame(f)[..8]) == |f| && Frame(f)[8..] == f
  {
    U64Fits(|f|);
    BigEndianValue(|f|, 8);
    assert Frame(f)[..8] == BigEndian(|f|, 8);
  }

  lemma FrameIsPrefixFree(f: Bytes, s: Bytes, g: Bytes, t: Bytes)
    requires |f| < U64_LIMIT && |g| < U64_LIMIT && Frame(f) + s == Frame(g) + t
    ensures f == g && s == t
  {
    var x, y := Frame(f) + s, Frame(g) + t;
    assert x[..8] == BigEndian(|f|, 8) && y[..8] == BigEndian(|g|, 8);
    U64Fits(|f|);
    U64Fits(|g|);
    BigEndianInjective(|f|, |g|, 8);
    assert x[8..8 + |f|] == f && y[8..8 + |g|] == g;
    assert x[8 + |f|..] == s && y[8 + |g|..] == t;
  }

  /** The encoding determines the fields and their number. */
  lemma {:induction false} EncodeFieldsInjective(f: seq<Bytes>, g: seq<Bytes>)
    requires Sized(f) && Sized(g) && EncodeFields(f) == EncodeFields(g)
    ensures f == g
  {
    hide Frame;
    if |f| > 0 && |g| > 0 {
      FrameIsPrefixFree(f[0], EncodeFields(f[1..]), g[0], EncodeFields(g[1..]));
      EncodeFieldsInjective(f[1..], g[1..]);
      assert f == [f[0]] + f[1..] && g == [g[0]] + g[1..];
    }
  }

  lemma {:induction false} EncodeAppend(fields: seq<Bytes>, f: Bytes)
    ensures EncodeFields(fields + [f]) == EncodeFields(fields) + Frame(f)
  {
    hide Frame;
    if |fields| == 0 {
      assert fields + [f] == [f] && [f][1..] == [];
    } else {
      assert (fields + [f])[1..] == fields[1..] + [f];
      EncodeAppend(fields[1..], f);
      ConcatAssoc(Frame(fields[0]), EncodeFields(fields[1..]), Frame(f));
    }
  }

  /** The request as the enclave evaluates it; structured values are their serialized JSON. */
  datatype SignRequest = SignRequest(
    action: Bytes,
    method_: Option<Bytes>,
    path: Option<Bytes>,
    query: Option<Bytes>,
    body: Option<Bytes>,
    op: Option<Bytes>,
    payload: Option<Bytes>,
    timestampMs: Option<nat>,
    hlAction: Option<Bytes>,
    nonce: Option<nat>,
    vaultAddress: Option<Bytes>,
    order: Option<Bytes>,
    cancel: Option<Bytes>,
    x402: Option<Bytes>,
    permit2: Option<Bytes>,
    data: Option<Bytes>)

  function OrEmpty(v: Option<Bytes>): Bytes {
    if v.Some? then v.value else []
  }

  function NumberText(v: Option<nat>): Bytes {
    if v.Some? then DecimalText(v.value) else []
  }

  /** The sixteen field strings, in their fixed order. */
  function RequestFields(r: SignRequest): seq<Bytes> {
    [r.action, OrEmpty(r.method_), OrEmpty(r.path), OrEmpty(r.query), OrEmpty(r.body), OrEmpty(r.op),
     OrEmpty(r.payload),
     NumberText(r.timestampMs), OrEmpty(r.hlAction), NumberText(r.nonce), OrEmpty(r.vaultAddress), OrEmpty(r.order),
     OrEmpty(r.cancel), OrEmpty(r.x402), OrEmpty(r.permit2), OrEmpty(r.data)]
  }

  /** The hasher has taken in the first k fields. */
  ghost predicate Absorbed(data: Bytes, all: seq<Bytes>, k: nat) {
    k <= |all| && data == EncodeFields(all[..k])
  }

  lemma AbsorbedNone(all: seq<Bytes>)
    ensures Absorbed([], all, 0)
  {
  }

  lemma AbsorbedAll(data: Bytes, all: seq<Bytes>)
    requires Absorbed(data, all, |all|)
    ensures data == EncodeFields(all)
  {
    assert all[..|all|] == all;
  }

  lemma FieldOrder(r: SignRequest)
    ensures var f := RequestFields(r);
      && |f| == 16
      && f[0] == r.action && f[1] == OrEmpty(r.method_) && f[2] == OrEmpty(r.path) && f[3] == OrEmpty(r.query)
      && f[4] == OrEmpty(r.body) && f[5] == OrEmpty(r.op) && f[6] == OrEmpty(r.payload)
      && f[7] == NumberText(r.timestampMs) && f[8] == OrEmpty(r.hlAction) && f[9] == NumberText(r.nonce)
      && f[10] == OrEmpty(r.vaultAddress) && f[11] == OrEmpty(r.order) && f[12] == OrEmpty(r.cancel)
      && f[13] == OrEmpty(r.x402) && f[14] == OrEmpty(r.permit2) && f[15] == OrEmpty(r.data)
  {
    hide OrEmpty, NumberText;
  }

  /** The next field of a list, pushed after the ones before it. */
  method PushField(h: J.Buffer, ghost all: seq<Bytes>, ghost k: nat, f: Bytes)
    requires k < |all| && all[k] == f && Absorbed(h.data, all, k)
    modifies h
    ensures Absorbed(h.data, all, k + 1)
  {
    AbsorbsNext(h.data, all, k);
    hide Absorbed;
    h.Push(BigEndian(|f|, 8));
    h.Push(f);
  }

  lemma AbsorbsNext(data: Bytes, all: seq<Bytes>, k: nat)
    requires k < |all| && Absorbed(data, all, k)
    ensures Absorbed(data + BigEndian(|all[k]|, 8) + all[k], all, k + 1)
  {
    hide EncodeFields, BigEndian, Frame;
    var f, front := all[k], all[..k];
    EncodeAppend(front, f);
    FrameParts(data, f);
    assert all[..k + 1] == front + [f];
  }

  lemma FrameParts(data: Bytes, f: Bytes)
    ensures data + Frame(f) == data + BigEndian(|f|, 8) + f
  {
    hide BigEndian;
    ConcatAssoc(data, BigEndian(|f|, 8), f);
  }

  /** Feeds the hasher field by field. */
  method RequestDigestPreimage(r: SignRequest) returns (preimage: Bytes)
    ensures preimage == EncodeFields(RequestFields(r))
  {
    var h := new J.Buffer();
    ghost var all := RequestFields(r);
    hide EncodeFields, DecimalText, OrEmpty, NumberText, RequestFields, Absorbed;
    FieldOrder(r);
    AbsorbedNone(all);
    PushField(h, all, 0, r.action);
    PushField(h, all, 1, OrEmpty(r.method_));
    PushField(h, all, 2, OrEmpty(r.path));
    PushField(h, all, 3, OrEmpty(r.query));
    PushField(h, all, 4, OrEmpty(r.body));
    PushField(h, all, 5, OrEmpty(r.op));
    PushField(h, all, 6, OrEmpty(r.payload));
    PushField(h, all, 7, NumberText(r.timestampMs));
    PushField(h, all, 8, OrEmpty(r.hlAction));
    PushField(h, all, 9, NumberText(r.nonce));
    PushField(h, all, 10, OrEmpty(r.vaultAddress));
    PushField(h, all, 11, OrEmpty(r.order));
    PushField(h, all, 12, OrEmpty(r.cancel));
    PushField(h, all, 13, OrEmpty(r.x402));
    PushField(h, all, 14, OrEmpty(r.permit2));
    PushField(h, all, 15, OrEmpty(r.data));
    AbsorbedAll(h.data, all);
    preimage := h.data;
  }

  /** Equal but for an absent text field standing for an empty one. */
  predicate SameRequest(a: SignRequest, b: SignRequest) {
    && a.action == b.action && a.timestampMs == b.timestampMs && a.nonce == b.nonce
    && OrEmpty(a.method_) == OrEmpty(b.method_) && OrEmpty(a.path) == OrEmpty(b.path)
    && OrEmpty(a.query) == OrEmpty(b.query) && OrEmpty(a.body) == OrEmpty(b.body)
    && OrEmpty(a.op) == OrEmpty(b.op) && OrEmpty(a.payload) == OrEmpty(b.payload)
    && OrEmpty(a.hlAction) == OrEmpty(b.hlAction) && OrEmpty(a.vaultAddress) == OrEmpty(b.vaultAddress)
    && OrEmpty(a.order) == OrEmpty(b.order) && OrEmpty(a.cancel) == OrEmpty(b.cancel)
    && OrEmpty(a.x402) == OrEmpty(b.x402) && OrEmpty(a.permit2) == OrEmpty(b.permit2)
    && OrEmpty(a.data) == OrEmpty(b.data)
  }

  lemma NumberTextInjective(a: Option<nat>, b: Option<nat>)
    requires NumberText(a) == NumberText(b)
    ensures a == b
  {
    if a.Some? && b.Some? {
      DecimalTextInjective(a.value, b.value);
    }
  }

  /** The digest preimage ties a receipt to one request: it is shared exactly by requests with the same fields. */
  lemma RequestPreimageDecides(a: SignRequest, b: SignRequest)
    requires Sized(RequestFields(a)) && Sized(RequestFields(b))
    ensures EncodeFields(RequestFields(a)) == EncodeFields(RequestFields(b)) <==> SameRequest(a, b)
  {
    hide EncodeFields, DecimalText, OrEmpty, NumberText, Sized;
    var f, g := RequestFields(a), RequestFields(b);
    if EncodeFields(f) == EncodeFields(g) {
      EncodeFieldsInjective(f, g);
      FieldOrder(a);
      FieldOrder(b);
      NumberTextInjective(a.timestampMs, b.timestampMs);
      NumberTextInjective(a.nonce, b.nonce);
    }
  }

  // ---------------------------------------------------------------- the cache key

  type Context = map<Bytes, Bytes>

  const KEY_END: byte := 0x1E
  const VALUE_END: byte := 0x1D
  const CONTEXT_START: byte := 0x1F

  /** Keys in byte order. */
  function InsertKey(k: Bytes, keys: seq<Bytes>): (r: seq<Bytes>)
    ensures forall x :: x in r <==> x == k || x in keys
  {
    if |keys| == 0 || Less(k, keys[0]) then [k] + keys
    else
      assert forall x :: x in keys <==> x == keys[0] || x in keys[1..];
      [keys[0]] + InsertKey(k, keys[1..])
  }

  function SortKeys(keys: seq<Bytes>): (r: seq<Bytes>)
    ensures forall x :: x in r <==> x in keys
  {
    if |keys| == 0 then []
    else
      assert forall x :: x in keys <==> x == keys[0] || x in keys[1..];
      InsertKey(keys[0], SortKeys(keys[1..]))
  }

  lemma {:induction false} InsertKeySorted(k: Bytes, keys: seq<Bytes>)
    requires StrictlySorted(keys) && k !in keys
    ensures StrictlySorted(InsertKey(k, keys))
  {
    hide Less;
    if |keys| > 0 {
      LessTotal(k, keys[0]);
      if Less(k, keys[0]) {
        forall j | 0 < j < |keys| ensures Less(k, keys[j]) {
          LessTransitive(k, keys[0], keys[j]);
        }
      } else {
        InsertKeySorted(k, keys[1..]);
        var r := InsertKey(k, keys[1..]);
        forall j | 0 <= j < |r| ensures Less(keys[0], r[j]) {
          assert r[j] in r;
        }
      }
    }
  }

  lemma {:induction false} SortKeysSorts(keys: seq<Bytes>)
    requires NoDuplicates(keys)
    ensures StrictlySorted(SortKeys(keys))
  {
    if |keys| > 0 {
      SortKeysSorts(keys[1..]);
      assert keys[0] !in SortKeys(keys[1..]) by {
        assert keys[0] !in keys[1..];
      }
      InsertKeySorted(keys[0], SortKeys(keys[1..]));
    }
  }

  function Entry(k: Bytes, v: Bytes): Bytes {
    k + [KEY_END] + v + [VALUE_END]
  }

  function Flatten(keys: seq<Bytes>, ctx: Context): Bytes
    requires forall k :: k in keys ==> k in ctx
  {
    if |keys| == 0 then [] else Entry(keys[0], ctx[keys[0]]) + Flatten(keys[1..], ctx)
  }

  /** What is hashed into a cache key, for a context whose keys were iterated in the order `listing`. */
  function CacheKeyPreimage(wrapped: Bytes, ctx: Context, listing: seq<Bytes>): Bytes
    requires forall k :: k in listing ==> k in ctx
  {
    LittleEndian(|wrapped|, 8) + (wrapped + ([CONTEXT_START] + Flatten(SortKeys(listing), ctx)))
  }

  /** Feeds the hasher entry by entry. */
  method DeriveKeyPreimage(wrapped: Bytes, ctx: Context, listing: seq<Bytes>) returns (preimage: Bytes)
    requires Lists(listing, ctx.Keys)
    ensures preimage == CacheKeyPreimage(wrapped, ctx, listing)
  {
    hide Lists, SortKeys, Entry;
    ListingInContext(listing, ctx);
    var h := new J.Buffer();
    h.Push(LittleEndian(|wrapped|, 8));
    h.Push(wrapped);
    h.Push([CONTEXT_START]);
    assert h.data == LittleEndian(|wrapped|, 8) + wrapped + [CONTEXT_START];
    var keys := SortKeys(listing);
    ghost var target := h.data + Flatten(keys, ctx);
    ConcatAssoc(LittleEndian(|wrapped|, 8) + wrapped, [CONTEXT_START], Flatten(keys, ctx));
    ConcatAssoc(LittleEndian(|wrapped|, 8), wrapped, [CONTEXT_START] + Flatten(keys, ctx));
    assert target == CacheKeyPreimage(wrapped, ctx, listing);
    assert keys[0..] == keys;
    for i := 0 to |keys|
      invariant h.data + Flatten(keys[i..], ctx) == target
    {
      ghost var before := h.data;
      h.Push(keys[i]);
      h.Push([KEY_END]);
      h.Push(ctx[keys[i]]);
      h.Push([VALUE_END]);
      EntryPushed(before, keys[i], ctx[keys[i]]);
      assert keys[i..][1..] == keys[i + 1..];
      ConcatAssoc(before, Entry(keys[i], ctx[keys[i]]), Flatten(keys[i + 1..], ctx));
    }
    assert keys[|keys|..] == [];
    preimage := h.data;
  }

  lemma ListingInContext(listing: seq<Bytes>, ctx: Context)
    requires Lists(listing, ctx.Keys)
    ensures forall k :: k in listing ==> k in ctx
  {
  }

  lemma EntryPushed(before: Bytes, k: Bytes, v: Bytes)
    ensures before + k + [KEY_END] + v + [VALUE_END] == before + Entry(k, v)
  {
  }

  /** The order in which a context is iterated does not reach the key. */
  lemma CacheKeyIgnoresOrder(wrapped: Bytes, ctx: Context, p: seq<Bytes>, q: seq<Bytes>)
    requires Lists(p, ctx.Keys) && Lists(q, ctx.Keys)
    ensures CacheKeyPreimage(wrapped, ctx, p) == CacheKeyPreimage(wrapped, ctx, q)
  {
    SortKeysSorts(p);
    SortKeysSorts(q);
    StrictlySortedUnique(SortKeys(p), SortKeys(q));
  }

  /** No key holds the byte that ends keys, no value the byte that ends values. */
  predicate SeparatorFree(ctx: Context) {
    forall k :: k in ctx ==> KEY_END !in k && VALUE_END !in ctx[k]
  }

  lemma EntryIsPrefixFree(k: Bytes, v: Bytes, s: Bytes, l: Bytes, w: Bytes, t: Bytes)
    requires KEY_END !in k && KEY_END !in l && VALUE_END !in v && VALUE_END !in w
    requires Entry(k, v) + s == Entry(l, w) + t
    ensures k == l && v == w && s == t
  {
    EntryRegroups(k, v, s);
    EntryRegroups(l, w, t);
    hide Entry;
    UpTo(KEY_END, k, v + ([VALUE_END] + s), l, w + ([VALUE_END] + t));
    UpTo(VALUE_END, v, s, w, t);
  }

  lemma EntryRegroups(k: Bytes, v: Bytes, s: Bytes)
    ensures Entry(k, v) + s == k + ([KEY_END] + (v + ([VALUE_END] + s)))
  {
    ConcatAssoc(k + [KEY_END] + v, [VALUE_END], s);
    ConcatAssoc(k + [KEY_END], v, [VALUE_END] + s);
    ConcatAssoc(k, [KEY_END], v + ([VALUE_END] + s));
  }

  lemma {:induction false} FlattenInjective(p: seq<Bytes>, c: Context, q: seq<Bytes>, d: Context)
    requires (forall k :: k in p ==> k in c) && (forall k :: k in q ==> k in d)
    requires SeparatorFree(c) && SeparatorFree(d) && Flatten(p, c) == Flatten(q, d)
    ensures p == q && forall k :: k in p ==> c[k] == d[k]
  {
    hide SeparatorFree;
    if |p| > 0 && |q| > 0 {
      CleanEntry(c, p[0]);
      CleanEntry(d, q[0]);
      EntryIsPrefixFree(p[0], c[p[0]], Flatten(p[1..], c), q[0], d[q[0]], Flatten(q[1..], d));
      FlattenInjective(p[1..], c, q[1..], d);
      assert p == [p[0]] + p[1..] && q == [q[0]] + q[1..];
    }
  }

  lemma CleanEntry(ctx: Context, k: Bytes)
    requires SeparatorFree(ctx) && k in ctx
    ensures KEY_END !in k && VALUE_END !in ctx[k]
  {
  }

  /** Without separators in the context, a cache key preimage determines the wrapped key and the whole context. */
  lemma CacheKeyInjective(w: Bytes, c: Context, p: seq<Bytes>, x: Bytes, d: Context, q: seq<Bytes>)
    requires Lists(p, c.Keys) && Lists(q, d.Keys) && SeparatorFree(c) && SeparatorFree(d)
    requires |w| < U64_LIMIT && |x| < U64_LIMIT
    requires CacheKeyPreimage(w, c, p) == CacheKeyPreimage(x, d, q)
    ensures w == x && c == d
  {
    hide SeparatorFree, SortKeys, Flatten;
    WrappedSplits(w, Flatten(SortKeys(p), c), x, Flatten(SortKeys(q), d));
    FlattenInjective(SortKeys(p), c, SortKeys(q), d);
    SameContext(p, c, q, d);
  }

  lemma WrappedSplits(w: Bytes, s: Bytes, x: Bytes, t: Bytes)
    requires |w| < U64_LIMIT && |x| < U64_LIMIT
    requires LittleEndian(|w|, 8) + (w + ([CONTEXT_START] + s)) == LittleEndian(|x|, 8) + (x + ([CONTEXT_START] + t))
    ensures w == x && s == t
  {
    hide LittleEndian;
    SameParts(LittleEndian(|w|, 8), w + ([CONTEXT_START] + s), LittleEndian(|x|, 8), x + ([CONTEXT_START] + t));
    U64Fits(|w|);
    U64Fits(|x|);
    LittleEndianInjective(|w|, |x|, 8);
    SameParts(w, [CONTEXT_START] + s, x, [CONTEXT_START] + t);
    SameParts([CONTEXT_START], s, [CONTEXT_START], t);
  }

  lemma SameContext(p: seq<Bytes>, c: Context, q: seq<Bytes>, d: Context)
    requires Lists(p, c.Keys) && Lists(q, d.Keys) && SortKeys(p) == SortKeys(q)
    requires forall k :: k in SortKeys(p) ==> k in c && k in d && c[k] == d[k]
    ensures c == d
  {
    assert forall k :: k in c <==> k in SortKeys(p);
    assert forall k :: k in d <==> k in SortKeys(q);
  }

  // ---------------------------------------------------------------- identities

  const CUSTOMER_ID: Bytes := Ascii("customer_id")
  const VENUE_ID: Bytes := Ascii("venue_id")

  /** The KMS context of a resolved identity. */
  function EncryptionContext(customer: Bytes, venue: Bytes): Context {
    map[CUSTOMER_ID := customer, VENUE_ID := venue]
  }

  lemma SafeIdIsClean(id: Bytes)
    requires R.IsSafeId(id)
    ensures VALUE_END !in id && 10 !in id
  {
  }

  /** What stands between the customer and the venue in the preimage of an identity. */
  const MIDDLE: Bytes := [VALUE_END] + VENUE_ID + [KEY_END]

  function Joined(customer: Bytes, venue: Bytes): Bytes {
    customer + MIDDLE + venue
  }

  predicate OccursAt(m: Bytes, s: Bytes, i: nat) {
    i + |m| <= |s| && s[i..i + |m|] == m
  }

  ghost predicate Occurs(m: Bytes, s: Bytes) {
    exists i: nat :: OccursAt(m, s, i)
  }

  /** The byte that opens the middle part does not come back in it, so occurrences cannot overlap. */
  lemma MiddleHasNoBorder()
    ensures |MIDDLE| == 10 && MIDDLE[0] == VALUE_END
    ensures forall i :: 0 < i < 10 ==> MIDDLE[i] != VALUE_END
  {
  }

  /** A second occurrence of the middle part lies wholly within the customer or within the venue. */
  lemma OtherOccurrence(customer: Bytes, venue: Bytes, i: nat)
    requires OccursAt(MIDDLE, Joined(customer, venue), i) && i != |customer|
    ensures Occurs(MIDDLE, customer) || Occurs(MIDDLE, venue)
  {
    hide Ascii;
    NoOverlap(customer, venue, i);
    var s, n, m := Joined(customer, venue), |customer|, MIDDLE;
    if i + |m| <= n {
      assert customer[i..i + |m|] == s[i..i + |m|];
      assert OccursAt(m, customer, i);
    } else {
      var k := i - n - |m|;
      assert venue[k..k + |m|] == s[i..i + |m|];
      assert OccursAt(m, venue, k);
    }
  }

  lemma NoOverlap(customer: Bytes, venue: Bytes, i: nat)
    requires OccursAt(MIDDLE, Joined(customer, venue), i) && i != |customer|
    ensures i + |MIDDLE| <= |customer| || |customer| + |MIDDLE| <= i
  {
    MiddleHasNoBorder();
    hide Ascii;
    var s, n, m := Joined(customer, venue), |customer|, MIDDLE;
    assert s[n..n + |m|] == m;
    ByteOf(m, s, n, if n <= i < n + |m| then i else n);
    ByteOf(m, s, i, if i <= n < i + |m| then n else i);
    ByteOf(m, s, n, n);
    ByteOf(m, s, i, i);
  }

  lemma ByteOf(m: Bytes, s: Bytes, i: nat, k: nat)
    requires OccursAt(m, s, i) && i <= k < i + |m|
    ensures s[k] == m[k - i]
  {
    assert s[i..i + |m|][k - i] == s[k];
  }

  lemma FirstByteOccurs(m: Bytes, s: Bytes)
    requires |m| > 0 && Occurs(m, s)
    ensures m[0] in s
  {
    var i: nat :| OccursAt(m, s, i);
    ByteOf(m, s, i, i);
  }

  /** Two identities are joined alike only if one of them holds the middle part a second time. */
  lemma JoinedTwice(customer: Bytes, venue: Bytes, customer': Bytes, venue': Bytes)
    requires Joined(customer, venue) == Joined(customer', venue') && !Occurs(MIDDLE, customer) && !Occurs(MIDDLE, venue)
    ensures customer == customer' && venue == venue'
  {
    hide Ascii, Occurs;
    var s := Joined(customer', venue');
    assert s[|customer'|..|customer'| + |MIDDLE|] == MIDDLE;
    assert OccursAt(MIDDLE, s, |customer'|);
    if |customer'| != |customer| {
      OtherOccurrence(customer, venue, |customer'|);
    } else {
      SameParts(customer + MIDDLE, venue, customer' + MIDDLE, venue');
      SameParts(customer, MIDDLE, customer', MIDDLE);
    }
  }

  /** Any listing of an identity's context is sorted into customer, then venue. */
  lemma IdentityFlattens(customer: Bytes, venue: Bytes, p: seq<Bytes>)
    requires Lists(p, EncryptionContext(customer, venue).Keys)
    ensures Flatten(SortKeys(p), EncryptionContext(customer, venue))
         == CUSTOMER_ID + [KEY_END] + Joined(customer, venue) + [VALUE_END]
  {
    SortedIdentity(customer, venue, p);
    IdentityMembers(customer, venue);
    hide Ascii, Flatten, SortKeys, Joined, Entry, Lists, EncryptionContext;
    FlattenTwo(EncryptionContext(customer, venue), CUSTOMER_ID, VENUE_ID);
    TwoEntries(customer, venue);
  }

  lemma IdentityMembers(customer: Bytes, venue: Bytes)
    ensures var ctx := EncryptionContext(customer, venue);
      CUSTOMER_ID in ctx && VENUE_ID in ctx && ctx[CUSTOMER_ID] == customer && ctx[VENUE_ID] == venue
  {
    hide Ascii;
    AsciiInjective("customer_id", "venue_id");
  }

  lemma SortedIdentity(customer: Bytes, venue: Bytes, p: seq<Bytes>)
    requires Lists(p, EncryptionContext(customer, venue).Keys)
    ensures SortKeys(p) == [CUSTOMER_ID, VENUE_ID]
  {
    SortKeysSorts(p);
    var keys := [CUSTOMER_ID, VENUE_ID];
    assert CUSTOMER_ID[0] == 99 && VENUE_ID[0] == 118;
    assert StrictlySorted(keys);
    hide Ascii, SortKeys, StrictlySorted, Less;
    assert forall k :: k in SortKeys(p) <==> k in keys;
    StrictlySortedUnique(SortKeys(p), keys);
  }

  lemma FlattenTwo(ctx: Context, k: Bytes, l: Bytes)
    requires k in ctx && l in ctx
    ensures Flatten([k, l], ctx) == Entry(k, ctx[k]) + (Entry(l, ctx[l]) + [])
  {
    hide Entry;
    assert [k, l][1..] == [l] && [l][1..] == [];
    assert Flatten([l], ctx) == Entry(l, ctx[l]) + [];
  }

  lemma TwoEntries(customer: Bytes, venue: Bytes)
    ensures Entry(CUSTOMER_ID, customer) + (Entry(VENUE_ID, venue) + [])
         == CUSTOMER_ID + [KEY_END] + Joined(customer, venue) + [VALUE_END]
  {
    hide Ascii;
  }

  /** What is hashed for an identity, byte for byte. */
  lemma IdentityPreimageIs(w: Bytes, customer: Bytes, venue: Bytes, p: seq<Bytes>)
    requires |w| < U64_LIMIT && Lists(p, EncryptionContext(customer, venue).Keys)
    ensures var m := CacheKeyPreimage(w, EncryptionContext(customer, venue), p);
      && |m| >= 8 && Value(256, m[..8]) == |w|
      && m[8..] == w + [0x1F] + Ascii("customer_id") + [0x1E] + customer + [0x1D]
                   + Ascii("venue_id") + [0x1E] + venue + [0x1D]
  {
    IdentityFlattens(customer, venue, p);
    U64Fits(|w|);
    LittleEndianValue(|w|, 8);
    var flat := Flatten(SortKeys(p), EncryptionContext(customer, venue));
    hide Ascii, Flatten, SortKeys, EncryptionContext, Lists, LittleEndian;
    var m := CacheKeyPreimage(w, EncryptionContext(customer, venue), p);
    assert m[..8] == LittleEndian(|w|, 8) && m[8..] == w + ([CONTEXT_START] + flat);
    JoinedText(customer, venue);
    IdentityText(w, customer, venue);
  }

  lemma JoinedText(customer: Bytes, venue: Bytes)
    ensures Joined(customer, venue) == customer + [0x1D] + Ascii("venue_id") + [0x1E] + venue
  {
    hide Ascii;
  }

  lemma IdentityText(w: Bytes, customer: Bytes, venue: Bytes)
    ensures var joined := customer + [0x1D] + Ascii("venue_id") + [0x1E] + venue;
      w + ([0x1F] + (Ascii("customer_id") + [0x1E] + joined + [0x1D]))
      == w + [0x1F] + Ascii("customer_id") + [0x1E] + customer + [0x1D] + Ascii("venue_id") + [0x1E] + venue + [0x1D]
  {
    hide Ascii;
  }

  /** Two identities share a preimage exactly when the wrapped keys agree and the identities are joined alike. */
  lemma IdentityPreimages(
    w: Bytes, customer: Bytes, venue: Bytes, p: seq<Bytes>, x: Bytes, customer': Bytes, venue': Bytes, q: seq<Bytes>)
    requires |w| < U64_LIMIT && |x| < U64_LIMIT
    requires Lists(p, EncryptionContext(customer, venue).Keys) && Lists(q, EncryptionContext(customer', venue').Keys)
    ensures CacheKeyPreimage(w, EncryptionContext(customer, venue), p)
         == CacheKeyPreimage(x, EncryptionContext(customer', venue'), q)
      <==> w == x && Joined(customer, venue) == Joined(customer', venue')
  {
    IdentityFlattens(customer, venue, p);
    IdentityFlattens(customer', venue', q);
    hide Ascii, SortKeys, Flatten, Lists, EncryptionContext, Joined;
    var c, d := EncryptionContext(customer, venue), EncryptionContext(customer', venue');
    if CacheKeyPreimage(w, c, p) == CacheKeyPreimage(x, d, q) {
      WrappedSplits(w, Flatten(SortKeys(p), c), x, Flatten(SortKeys(q), d));
      var s, t := Joined(customer, venue), Joined(customer', venue');
      var head := CUSTOMER_ID + [KEY_END];
      assert |head + s + [VALUE_END]| == |head + t + [VALUE_END]|;
      SameParts(head + s, [VALUE_END], head + t, [VALUE_END]);
      SameParts(head, s, head, t);
    }
  }

  /** A wrapped key, an identity and an order of its two members. */
  datatype Keyed = Keyed(wrapped: Bytes, customer: Bytes, venue: Bytes, listing: seq<Bytes>)

  ghost predicate Well(k: Keyed) {
    |k.wrapped| < U64_LIMIT && Lists(k.listing, EncryptionContext(k.customer, k.venue).Keys)
  }

  ghost predicate SharePreimage(k: Keyed, l: Keyed)
    requires Well(k) && Well(l)
  {
    CacheKeyPreimage(k.wrapped, EncryptionContext(k.customer, k.venue), k.listing)
    == CacheKeyPreimage(l.wrapped, EncryptionContext(l.customer, l.venue), l.listing)
  }

  /** No other identity or wrapped key has this preimage. */
  ghost predicate OwnPreimage(k: Keyed)
    requires Well(k)
  {
    forall l :: Well(l) && SharePreimage(k, l) ==>
      l.wrapped == k.wrapped && l.customer == k.customer && l.venue == k.venue
  }

  /** An identity has a preimage of its own exactly when the middle part occurs in neither customer nor venue. */
  lemma IdentityKeyIsOwn(k: Keyed)
    requires Well(k)
    ensures OwnPreimage(k) <==> !Occurs(MIDDLE, k.customer) && !Occurs(MIDDLE, k.venue)
  {
    hide Ascii, SharePreimage, Well, Joined, Occurs;
    if !Occurs(MIDDLE, k.customer) && !Occurs(MIDDLE, k.venue) {
      forall l | Well(l) && SharePreimage(k, l)
        ensures l.wrapped == k.wrapped && l.customer == k.customer && l.venue == k.venue
      {
        SharedIsJoined(k, l);
        JoinedTwice(k.customer, k.venue, l.customer, l.venue);
      }
    } else {
      var customer, venue := Rival(k.customer, k.venue);
      var l := Keyed(k.wrapped, customer, venue, k.listing);
      assert Well(l) by { SameContextKeys(k, l); }
      SharedIsJoined(k, l);
      assert SharePreimage(k, l);
    }
  }

  lemma SharedIsJoined(k: Keyed, l: Keyed)
    requires Well(k) && Well(l)
    ensures SharePreimage(k, l)
      <==> k.wrapped == l.wrapped && Joined(k.customer, k.venue) == Joined(l.customer, l.venue)
  {
    hide Ascii, CacheKeyPreimage, Joined;
    IdentityPreimages(k.wrapped, k.customer, k.venue, k.listing, l.wrapped, l.customer, l.venue, l.listing);
  }

  lemma SameContextKeys(k: Keyed, l: Keyed)
    requires Well(k) && l.wrapped == k.wrapped && l.listing == k.listing
    ensures Well(l)
  {
    hide Ascii, Lists;
    assert EncryptionContext(k.customer, k.venue).Keys == EncryptionContext(l.customer, l.venue).Keys;
  }

  /** With the middle part inside, the boundary can be read in a second place. */
  lemma Rival(customer: Bytes, venue: Bytes) returns (customer': Bytes, venue': Bytes)
    requires Occurs(MIDDLE, customer) || Occurs(MIDDLE, venue)
    ensures customer' != customer && Joined(customer', venue') == Joined(customer, venue)
  {
    hide Ascii;
    var n := |MIDDLE|;
    MiddleHasNoBorder();
    if Occurs(MIDDLE, customer) {
      var i: nat :| OccursAt(MIDDLE, customer, i);
      var a, b := customer[..i], customer[i + n..];
      assert customer == a + MIDDLE + b;
      customer', venue' := a, b + MIDDLE + venue;
      Regroup(a, b, venue);
    } else {
      var i: nat :| OccursAt(MIDDLE, venue, i);
      var a, b := venue[..i], venue[i + n..];
      assert venue == a + MIDDLE + b;
      customer', venue' := customer + MIDDLE + a, b;
      Regroup(customer, a, b);
    }
  }

  lemma Regroup(a: Bytes, b: Bytes, c: Bytes)
    ensures Joined(a + MIDDLE + b, c) == Joined(a, b + MIDDLE + c)
  {
    hide Ascii;
    var m := MIDDLE;
    ConcatAssoc(a + m, b, m);
    ConcatAssoc(a + m, b + m, c);
  }

  /**
   The notes say that distinct splits cannot collide. With the separators inside an identifier they do: these two
   identities share every cache key.
   */
  lemma SeparatorsCollide(w: Bytes, a: Bytes, b: Bytes, c: Bytes, listing: seq<Bytes>)
    requires Well(Keyed(w, a, b, listing))
    ensures var k, l := Keyed(w, a + MIDDLE + b, c, listing), Keyed(w, a, b + MIDDLE + c, listing);
      k.customer != l.customer && Well(k) && Well(l) && SharePreimage(k, l)
  {
    hide Ascii, Well, SharePreimage, Joined;
    var k, l := Keyed(w, a + MIDDLE + b, c, listing), Keyed(w, a, b + MIDDLE + c, listing);
    SameContextKeys(Keyed(w, a, b, listing), k);
    SameContextKeys(Keyed(w, a, b, listing), l);
    Regroup(a, b, c);
    SharedIsJoined(k, l);
    MiddleHasNoBorder();
    assert |k.customer| > |l.customer|;
  }

  lemma SafeIdHasNoMiddle(id: Bytes)
    requires R.IsSafeId(id)
    ensures !Occurs(MIDDLE, id)
  {
    SafeIdIsClean(id);
    MiddleHasNoBorder();
    hide R.IsSafeId, Ascii;
    if Occurs(MIDDLE, id) {
      FirstByteOccurs(MIDDLE, id);
    }
  }

  /** For safe ids a cache hit can only be for the same wrapped key, customer and venue. */
  lemma CacheKeyBindsIdentity(k: Keyed, l: Keyed)
    requires Well(k) && Well(l) && R.IsSafeId(k.customer) && R.IsSafeId(k.venue) && SharePreimage(k, l)
    ensures l.wrapped == k.wrapped && l.customer == k.customer && l.venue == k.venue
  {
    SafeIdHasNoMiddle(k.customer);
    SafeIdHasNoMiddle(k.venue);
    hide R.IsSafeId, Ascii, Occurs, SharePreimage, Well;
    IdentityKeyIsOwn(k);
  }

  const NEWLINE: byte := 10
  const CUSTOMER_LINE: Bytes := Ascii("customer_id=")
  const VENUE_LINE: Bytes := Ascii("venue_id=")
  const VERSION_LINE: Bytes := Ascii("key_version=")

  /** The sealed identity a blob is bound to. */
  function SealedAad(customer: Bytes, venue: Bytes, version: nat): Bytes {
    CUSTOMER_LINE + customer + [NEWLINE] + (VENUE_LINE + venue + [NEWLINE] + (VERSION_LINE + DecimalText(version)))
  }

  /** The sealed identity as text. */
  lemma SealedAadIs(customer: Bytes, venue: Bytes, version: nat)
    ensures SealedAad(customer, venue, version)
         == Ascii("customer_id=") + customer + Ascii("\nvenue_id=") + venue
            + Ascii("\nkey_version=") + DecimalText(version)
  {
    assert Ascii("\nvenue_id=") == [10] + Ascii("venue_id=");
    assert Ascii("\nkey_version=") == [10] + Ascii("key_version=");
    hide Ascii, DecimalText;
  }

  /** Two lines starting alike and ending at the first newline are equal, and so is what follows. */
  lemma LineSplits(prefix: Bytes, a: Bytes, s: Bytes, b: Bytes, t: Bytes)
    requires NEWLINE !in prefix && NEWLINE !in a && NEWLINE !in b
    requires prefix + a + [NEWLINE] + s == prefix + b + [NEWLINE] + t
    ensures a == b && s == t
  {
    ConcatAssoc(prefix + a, [NEWLINE], s);
    ConcatAssoc(prefix + b, [NEWLINE], t);
    UpTo(NEWLINE, prefix + a, s, prefix + b, t);
    SameTail(prefix, a, b);
  }

  /** For safe ids the sealed identity determines customer, venue and version: no field can shift into another. */
  lemma SealedAadInjective(customer: Bytes, venue: Bytes, version: nat, customer': Bytes, venue': Bytes, version': nat)
    requires R.IsSafeId(customer) && R.IsSafeId(venue) && R.IsSafeId(customer') && R.IsSafeId(venue')
    requires SealedAad(customer, venue, version) == SealedAad(customer', venue', version')
    ensures customer == customer' && venue == venue' && version == version'
  {
    SafeIdIsClean(customer);
    SafeIdIsClean(venue);
    SafeIdIsClean(customer');
    SafeIdIsClean(venue');
    assert NEWLINE !in CUSTOMER_LINE && NEWLINE !in VENUE_LINE;
    hide R.IsSafeId, DecimalText, Ascii;
    var u, u' := VERSION_LINE + DecimalText(version), VERSION_LINE + DecimalText(version');
    LineSplits(
      CUSTOMER_LINE, customer, VENUE_LINE + venue + [NEWLINE] + u, customer', VENUE_LINE + venue' + [NEWLINE] + u');
    LineSplits(VENUE_LINE, venue, u, venue', u');
    assert u[|VERSION_LINE|..] == DecimalText(version) && u'[|VERSION_LINE|..] == DecimalText(version');
    DecimalTextInjective(version, version');
  }
}
