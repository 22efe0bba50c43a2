/**
 Decision receipts: a resident key, one counter per customer, and the signed documents they produce. Requests run
 concurrently: each copies the key out first and takes its number later, under the counter lock.
 */
module Receipts {
  import opened Wrappers
  import opened Lex
  import opened Listing
  import opened Text
  import opened Unicode
  import J = Json

  type Key = Bytes

  datatype Signature = Signature(r: Str, s: Str, v: nat)

  /** The hash and the signature scheme, and the random identifier drawn once per boot. */
  datatype Library = Library(keccak: Bytes -> Bytes, sign: (Key, Bytes) -> Option<Signature>, bootId: Str)

  /** What a receipt takes from the request. */
  datatype Pre = Pre(customer: Str, action: Str, requestHash: Str, intentSigHash: Str, suppliedTs: Str)

  /** What it takes from the finished response. */
  datatype Response = Response(error: Option<Str>, policyHash: Option<Str>)

  /** A receipt without its signature. */
  datatype Receipt = Receipt(version: Str, decision: Str, reasonCode: Str, customer: Str, action: Str,
    requestHash: Str, intentSigHash: Str, policyHash: Str, suppliedTs: Str, bootId: Str, seqNo: Str)

  /** A heartbeat without its signature. */
  datatype Heartbeat = Heartbeat(version: Str, bootId: Str, customer: Str, seqNext: Str, clientNonce: Str,
    registryVersion: Str, entryHash: Str)

  datatype SignedReceipt = SignedReceipt(receipt: Receipt, signature: Signature)

  datatype SignedHeartbeat = SignedHeartbeat(heartbeat: Heartbeat, signature: Signature)

  datatype Unavailable = NoKey | EntryNotCanonical | SignFailed

  const SIGN_: Str := Ascii("sign_")
  const SIGN_DATA: Str := Ascii("sign_data")
  const SIGN: Str := Ascii("sign")
  const EMPTY: Str := []

  predicate IsReceiptedAction(action: Str) {
    SIGN_ <= action && action != SIGN_DATA && action != SIGN
  }

  /** Every action that starts with `sign_` gets receipts, `sign_data` alone excepted. */
  lemma ReceiptedExactly(action: Str)
    ensures IsReceiptedAction(action) <==>
      |action| >= 5 && action[..5] == Ascii("sign_") && action != Ascii("sign_data")
  {
    assert SIGN_ == Ascii("sign_") && |SIGN_| == 5 && |SIGN| == 4;
  }

  // ---------------------------------------------------------------- signed payloads

  /** An object of string members. */
  function Record(names: seq<Str>, values: seq<Str>): J.Json
    requires |names| == |values|
  {
    J.Object(seq(|names|, i requires 0 <= i < |names| => J.Field(names[i], J.String(values[i]))))
  }

  lemma RecordIsCanonical(names: seq<Str>, values: seq<Str>)
    requires |names| == |values| && NoDuplicates(names)
    ensures J.NumberFree(Record(names, values)) && J.DistinctKeys(Record(names, values))
  {
  }

  /** The canonical bytes of a record determine every member. */
  lemma RecordDecides(names: seq<Str>, v: seq<Str>, w: seq<Str>)
    requires |names| == |v| == |w| && NoDuplicates(names)
    ensures J.CanonicalBytes(Record(names, v)) == J.CanonicalBytes(Record(names, w)) <==> v == w
  {
    hide J.CanonicalBytes, J.NumberFree, J.DistinctKeys, J.Same, Record;
    if J.CanonicalBytes(Record(names, v)) == J.CanonicalBytes(Record(names, w)) {
      RecordIsCanonical(names, v);
      RecordIsCanonical(names, w);
      J.CanonicalDecidesSame(Record(names, v), Record(names, w));
      SameRecord(names, v, w);
    }
  }

  lemma SameRecord(names: seq<Str>, v: seq<Str>, w: seq<Str>)
    requires |names| == |v| == |w| && NoDuplicates(names) && J.Same(Record(names, v), Record(names, w))
    ensures v == w
  {
    hide J.Covers, J.CoveredBy;
    forall i | 0 <= i < |v| ensures v[i] == w[i] {
      var j := J.MatchRight(Record(names, v).fields, Record(names, w).fields, i);
      assert names[i] == names[j];
    }
  }

  function ReceiptNames(): seq<Str> {
    [Ascii("v"), Ascii("decision"), Ascii("reason_code"), Ascii("customer_id"), Ascii("action"), Ascii("request_hash"),
     Ascii("intent_sig_hash"), Ascii("policy_hash"), Ascii("supplied_ts_ms"), Ascii("boot_id"), Ascii("seq")]
  }

  function ReceiptValues(r: Receipt): seq<Str> {
    [r.version, r.decision, r.reasonCode, r.customer, r.action, r.requestHash,
     r.intentSigHash, r.policyHash, r.suppliedTs, r.bootId, r.seqNo]
  }

  function HeartbeatNames(): seq<Str> {
    [Ascii("v"), Ascii("boot_id"), Ascii("customer_id"), Ascii("seq_next"), Ascii("client_nonce"),
     Ascii("registry_version"), Ascii("entry_hash")]
  }

  function HeartbeatValues(h: Heartbeat): seq<Str> {
    [h.version, h.bootId, h.customer, h.seqNext, h.clientNonce, h.registryVersion, h.entryHash]
  }

  lemma ReceiptNamesDiffer()
    ensures |ReceiptNames()| == 11 && NoDuplicates(ReceiptNames())
  {
    var n := ReceiptNames();
    assert n[2][0] == 114 && n[3][0] == 99 && n[7][0] == 112;
  }

  lemma HeartbeatNamesDiffer()
    ensures |HeartbeatNames()| == 7 && NoDuplicates(HeartbeatNames())
  {
  }

  /** The value of an object's member, if it has one of that name. */
  function Member(fields: seq<J.Field>, name: Str): Option<J.Json> {
    if |fields| == 0 then None
    else if fields[0].key == name then Some(fields[0].value)
    else Member(fields[1..], name)
  }

  lemma {:induction false} MemberAt(fields: seq<J.Field>, i: nat)
    requires J.KeysDiffer(fields) && i < |fields|
    ensures Member(fields, fields[i].key) == Some(fields[i].value)
  {
    if i > 0 {
      MemberAt(fields[1..], i - 1);
    }
  }

  /** A reader of the bytes finds an object with these members and no others. */
  ghost predicate Reads(payload: Bytes, names: seq<Str>, values: seq<Str>)
    requires |names| == |values|
  {
    var r := J.Parse(payload);
    && r.Some? && r.value.1 == [] && r.value.0.Object?
    && |r.value.0.fields| == |names|
    && forall i :: 0 <= i < |names| ==> Member(r.value.0.fields, names[i]) == Some(J.String(values[i]))
  }

  lemma StringsAreNormal(names: seq<Str>, values: seq<Str>)
    requires |names| == |values|
    ensures J.NormalizeFields(Record(names, values).fields) == Record(names, values).fields
  {
    hide J.NormalizeFields;
    var f := Record(names, values).fields;
    forall i | 0 <= i < |f| ensures J.NormalizeField(f[i]) == f[i] {
      assert f[i].value.String?;
    }
  }

  lemma SortedKeysDiffer(fields: seq<J.Field>)
    requires J.SortedFields(fields)
    ensures J.KeysDiffer(fields)
  {
    forall i, j | 0 <= i < j < |fields| ensures fields[i].key != fields[j].key {
      KeyOrderIsTotal(fields[i].key, fields[j].key);
    }
  }

  lemma RecordReads(names: seq<Str>, values: seq<Str>)
    requires |names| == |values| && NoDuplicates(names)
    ensures Reads(J.CanonicalBytes(Record(names, values)), names, values)
  {
    var fields := Record(names, values).fields;
    RecordIsCanonical(names, values);
    J.CanonicalParses(Record(names, values));
    StringsAreNormal(names, values);
    J.SortFieldsSorts(fields);
    var sorted := J.SortFields(fields);
    SortedKeysDiffer(sorted);
    hide J.Parse, J.CanonicalBytes, J.SortFields, J.Same, J.SortedFields, Member;
    forall i | 0 <= i < |names| ensures Member(sorted, names[i]) == Some(J.String(values[i])) {
      assert fields[i] in sorted;
      var j :| 0 <= j < |sorted| && sorted[j] == fields[i];
      MemberAt(sorted, j);
    }
  }

  const RECEIPT_DOMAIN: Bytes := Ascii("usenami-decision-receipt-v1")
  const HEARTBEAT_DOMAIN: Bytes := Ascii("usenami-receipt-heartbeat-v1")
  const DATA_DOMAIN: Bytes := Ascii("usenami-attested-data-v1")

  /** The hash preimages of the three kinds of document signed with one key. */
  datatype Document = Decision(r: Receipt) | Beat(h: Heartbeat) | Data(v: J.Json)

  function Preimage(d: Document): Bytes {
    match d
    case Decision(r) => RECEIPT_DOMAIN + J.CanonicalBytes(Record(ReceiptNames(), ReceiptValues(r)))
    case Beat(h) => HEARTBEAT_DOMAIN + J.CanonicalBytes(Record(HeartbeatNames(), HeartbeatValues(h)))
    case Data(v) => DATA_DOMAIN + J.CanonicalBytes(v)
  }

  predicate SignableDocument(d: Document) {
    d.Data? ==> J.NumberFree(d.v) && J.DistinctKeys(d.v)
  }

  predicate SameDocument(d: Document, e: Document) {
    if d.Data? && e.Data? then J.Same(d.v, e.v) else d == e
  }

  /** Two documents hash the same bytes exactly when they are the same kind of document with the same members. */
  lemma PreimageDecides(d: Document, e: Document)
    requires SignableDocument(d) && SignableDocument(e)
    ensures Preimage(d) == Preimage(e) <==> SameDocument(d, e)
  {
    hide J.CanonicalBytes, Record, ReceiptNames, HeartbeatNames, J.NumberFree, J.DistinctKeys, J.Same;
    DomainsDiffer(d, e);
    match (d, e)
    case (Decision(a), Decision(b)) =>
      ReceiptPayloadDecides(a, b);
    case (Beat(a), Beat(b)) =>
      HeartbeatPayloadDecides(a, b);
    case (Data(a), Data(b)) =>
      J.CanonicalDecidesSame(a, b);
      SameTail(DATA_DOMAIN, J.CanonicalBytes(a), J.CanonicalBytes(b));
    case _ =>
  }

  lemma DomainsDiffer(d: Document, e: Document)
    ensures Preimage(d) == Preimage(e) ==> (d.Decision? <==> e.Decision?) && (d.Beat? <==> e.Beat?)
  {
    hide J.CanonicalBytes, Record, ReceiptNames, HeartbeatNames;
    assert RECEIPT_DOMAIN[8] == 100 && HEARTBEAT_DOMAIN[8] == 114 && DATA_DOMAIN[8] == 97;
    assert Preimage(d)[8] == if d.Decision? then 100 else if d.Beat? then 114 else 97;
    assert Preimage(e)[8] == if e.Decision? then 100 else if e.Beat? then 114 else 97;
  }

  lemma ReceiptPayloadDecides(a: Receipt, b: Receipt)
    ensures Preimage(Decision(a)) == Preimage(Decision(b)) <==> a == b
  {
    hide J.CanonicalBytes, Record, ReceiptNames, NoDuplicates;
    var n, v, w := ReceiptNames(), ReceiptValues(a), ReceiptValues(b);
    ReceiptNamesDiffer();
    RecordDecides(n, v, w);
    SameTail(RECEIPT_DOMAIN, J.CanonicalBytes(Record(n, v)), J.CanonicalBytes(Record(n, w)));
    if v == w {
      assert v[0] == w[0] && v[1] == w[1] && v[2] == w[2] && v[3] == w[3] && v[4] == w[4] && v[5] == w[5];
      assert v[6] == w[6] && v[7] == w[7] && v[8] == w[8] && v[9] == w[9] && v[10] == w[10];
    }
  }

  lemma HeartbeatPayloadDecides(a: Heartbeat, b: Heartbeat)
    ensures Preimage(Beat(a)) == Preimage(Beat(b)) <==> a == b
  {
    hide J.CanonicalBytes, Record, HeartbeatNames, NoDuplicates;
    var n, v, w := HeartbeatNames(), HeartbeatValues(a), HeartbeatValues(b);
    HeartbeatNamesDiffer();
    RecordDecides(n, v, w);
    SameTail(HEARTBEAT_DOMAIN, J.CanonicalBytes(Record(n, v)), J.CanonicalBytes(Record(n, w)));
    if v == w {
      assert v[0] == w[0] && v[1] == w[1] && v[2] == w[2] && v[3] == w[3];
      assert v[4] == w[4] && v[5] == w[5] && v[6] == w[6];
    }
  }

  // ---------------------------------------------------------------- the chain

  const ALLOW: Str := Ascii("allow")
  const DENY: Str := Ascii("deny")
  const OK: Str := Ascii("ok")
  const ONE: Str := Ascii("1")

  /** A finished decision on its way to the counter, with the key it copied out. */
  datatype Draft = Draft(pk: Key, pre: Pre, resp: Response)

  function NumberText(n: nat): Str {
    DecimalText(n)
  }

  function Body(lib: Library, d: Draft, number: nat): Receipt {
    Receipt(ONE, if d.resp.error.None? then ALLOW else DENY, if d.resp.error.None? then OK else d.resp.error.value,
            d.pre.customer, d.pre.action, d.pre.requestHash, d.pre.intentSigHash,
            PolicyText(d), d.pre.suppliedTs, lib.bootId, NumberText(number))
  }

  function PolicyText(d: Draft): Str {
    if d.resp.policyHash.None? then EMPTY else d.resp.policyHash.value
  }

  /**
   A receipt tells its decision: two share their members exactly when request, error, policy hash and number agree, an
   absent policy hash counting as empty. No refusal reads as a permission, whatever its error code says.
   */
  lemma ReceiptTellsDecision(lib: Library, d: Draft, m: nat, e: Draft, n: nat)
    ensures Body(lib, d, m) == Body(lib, e, n)
      <==> d.pre == e.pre && d.resp.error == e.resp.error && PolicyText(d) == PolicyText(e) && m == n
  {
    hide NumberText;
    NumberTextDecides(m, n);
    assert ALLOW[0] != DENY[0];
  }

  /** A reader of what is signed, past the domain, finds a string of this name with this value. */
  ghost predicate Says(d: Document, domain: string, name: string, value: Str)
  {
    var p := Preimage(d);
    && Ascii(domain) <= p
    && var r := J.Parse(p[|domain|..]);
    && r.Some? && r.value.1 == [] && r.value.0.Object?
    && Member(r.value.0.fields, Ascii(name)) == Some(J.String(value))
  }

  /** How many members it has. */
  ghost predicate Members(d: Document, domain: string, n: nat) {
    var p := Preimage(d);
    |domain| <= |p| && var r := J.Parse(p[|domain|..]); r.Some? && r.value.0.Object? && |r.value.0.fields| == n
  }

  const RECEIPT_WORDS := "usenami-decision-receipt-v1"
  const HEARTBEAT_WORDS := "usenami-receipt-heartbeat-v1"

  lemma RecordSays(d: Document, domain: string, names: seq<Str>, values: seq<Str>, i: nat, name: string)
    requires |names| == |values| && i < |names| && names[i] == Ascii(name)
    requires Preimage(d) == Ascii(domain) + J.CanonicalBytes(Record(names, values))
    requires Reads(J.CanonicalBytes(Record(names, values)), names, values)
    ensures Says(d, domain, name, values[i]) && Members(d, domain, |names|)
  {
    hide Preimage, J.CanonicalBytes, Record, J.Parse, Member;
    assert Preimage(d)[|domain|..] == J.CanonicalBytes(Record(names, values));
  }

  /** The members of a signed receipt, by name. */
  lemma ReceiptSays(r: Receipt)
    ensures var d := Decision(r);
      && Members(d, RECEIPT_WORDS, 11)
      && Says(d, RECEIPT_WORDS, "v", r.version) && Says(d, RECEIPT_WORDS, "decision", r.decision)
      && Says(d, RECEIPT_WORDS, "reason_code", r.reasonCode) && Says(d, RECEIPT_WORDS, "customer_id", r.customer)
      && Says(d, RECEIPT_WORDS, "action", r.action) && Says(d, RECEIPT_WORDS, "request_hash", r.requestHash)
      && Says(d, RECEIPT_WORDS, "intent_sig_hash", r.intentSigHash)
      && Says(d, RECEIPT_WORDS, "policy_hash", r.policyHash)
      && Says(d, RECEIPT_WORDS, "supplied_ts_ms", r.suppliedTs)
      && Says(d, RECEIPT_WORDS, "boot_id", r.bootId) && Says(d, RECEIPT_WORDS, "seq", r.seqNo)
  {
    ReceiptNamesDiffer();
    var d, n, v := Decision(r), ReceiptNames(), ReceiptValues(r);
    RecordReads(n, v);
    assert Preimage(d) == Ascii(RECEIPT_WORDS) + J.CanonicalBytes(Record(n, v));
    hide Preimage, Says, Members, Reads, J.CanonicalBytes, Record, Ascii;
    RecordSays(d, RECEIPT_WORDS, n, v, 0, "v");
    RecordSays(d, RECEIPT_WORDS, n, v, 1, "decision");
    RecordSays(d, RECEIPT_WORDS, n, v, 2, "reason_code");
    RecordSays(d, RECEIPT_WORDS, n, v, 3, "customer_id");
    RecordSays(d, RECEIPT_WORDS, n, v, 4, "action");
    RecordSays(d, RECEIPT_WORDS, n, v, 5, "request_hash");
    RecordSays(d, RECEIPT_WORDS, n, v, 6, "intent_sig_hash");
    RecordSays(d, RECEIPT_WORDS, n, v, 7, "policy_hash");
    RecordSays(d, RECEIPT_WORDS, n, v, 8, "supplied_ts_ms");
    RecordSays(d, RECEIPT_WORDS, n, v, 9, "boot_id");
    RecordSays(d, RECEIPT_WORDS, n, v, 10, "seq");
  }

  /** The members of a signed heartbeat, by name. */
  lemma HeartbeatSays(h: Heartbeat)
    ensures var d := Beat(h);
      && Members(d, HEARTBEAT_WORDS, 7)
      && Says(d, HEARTBEAT_WORDS, "v", h.version) && Says(d, HEARTBEAT_WORDS, "boot_id", h.bootId)
      && Says(d, HEARTBEAT_WORDS, "customer_id", h.customer) && Says(d, HEARTBEAT_WORDS, "seq_next", h.seqNext)
      && Says(d, HEARTBEAT_WORDS, "client_nonce", h.clientNonce)
      && Says(d, HEARTBEAT_WORDS, "registry_version", h.registryVersion)
      && Says(d, HEARTBEAT_WORDS, "entry_hash", h.entryHash)
  {
    HeartbeatNamesDiffer();
    var d, n, v := Beat(h), HeartbeatNames(), HeartbeatValues(h);
    RecordReads(n, v);
    assert Preimage(d) == Ascii(HEARTBEAT_WORDS) + J.CanonicalBytes(Record(n, v));
    hide Preimage, Says, Members, Reads, J.CanonicalBytes, Record, Ascii;
    RecordSays(d, HEARTBEAT_WORDS, n, v, 0, "v");
    RecordSays(d, HEARTBEAT_WORDS, n, v, 1, "boot_id");
    RecordSays(d, HEARTBEAT_WORDS, n, v, 2, "customer_id");
    RecordSays(d, HEARTBEAT_WORDS, n, v, 3, "seq_next");
    RecordSays(d, HEARTBEAT_WORDS, n, v, 4, "client_nonce");
    RecordSays(d, HEARTBEAT_WORDS, n, v, 5, "registry_version");
    RecordSays(d, HEARTBEAT_WORDS, n, v, 6, "entry_hash");
  }

  /** What a signed receipt says of a decision: its outcome, its request and its number, under their names. */
  ghost predicate SaysDecision(r: Receipt, bootId: Str, d: Draft, number: nat) {
    var doc, code := Decision(r), d.resp.error;
    && Members(doc, RECEIPT_WORDS, 11)
    && Says(doc, RECEIPT_WORDS, "v", Ascii("1"))
    && Says(doc, RECEIPT_WORDS, "decision", if code.None? then Ascii("allow") else Ascii("deny"))
    && Says(doc, RECEIPT_WORDS, "reason_code", if code.None? then Ascii("ok") else code.value)
    && Says(doc, RECEIPT_WORDS, "customer_id", d.pre.customer)
    && Says(doc, RECEIPT_WORDS, "action", d.pre.action)
    && Says(doc, RECEIPT_WORDS, "request_hash", d.pre.requestHash)
    && Says(doc, RECEIPT_WORDS, "intent_sig_hash", d.pre.intentSigHash)
    && Says(doc, RECEIPT_WORDS, "policy_hash", if d.resp.policyHash.None? then [] else d.resp.policyHash.value)
    && Says(doc, RECEIPT_WORDS, "supplied_ts_ms", d.pre.suppliedTs)
    && Says(doc, RECEIPT_WORDS, "boot_id", bootId)
    && Says(doc, RECEIPT_WORDS, "seq", DecimalText(number))
  }

  lemma BodySays(lib: Library, d: Draft, number: nat)
    ensures SaysDecision(Body(lib, d, number), lib.bootId, d, number)
  {
    hide Says, Members, DecimalText, Ascii;
    ReceiptSays(Body(lib, d, number));
  }

  function SignDocument(lib: Library, pk: Key, d: Document): Option<Signature> {
    lib.sign(pk, lib.keccak(Preimage(d)))
  }

  /** One issued receipt. */
  datatype Entry = Entry(draft: Draft, number: nat, signature: Signature)

  /** A counter reading handed out, and how many receipts had been issued in all by then. */
  datatype Answer = Answer(customer: Str, seqNext: nat, at: nat)

  /** The key slot and the counters, the requests between their two locks, and what has happened since boot. */
  datatype State = State(key: Option<Key>, counters: map<Str, nat>, pending: multiset<Draft>,
    begun: multiset<Draft>, failed: multiset<Draft>, issued: seq<Entry>, answers: seq<Answer>, installed: set<Key>)

  const BOOT := State(None, map[], multiset{}, multiset{}, multiset{}, [], [], {})

  datatype Step = Install(pk: Key) | Begin(pre: Pre, resp: Response) | Commit(draft: Draft) | Ask(customer: Str)

  function NextFor(counters: map<Str, nat>, customer: Str): nat {
    if customer in counters then counters[customer] else 0
  }

  /** Counters are 64 bits wide and wrap. */
  function Wrap(n: nat): nat {
    n % U64_LIMIT
  }

  function Bump(n: nat): nat {
    Wrap(n + 1)
  }

  lemma BumpWraps(n: nat)
    ensures Bump(Wrap(n)) == Wrap(n + 1)
  {
    var q := n / U64_LIMIT;
    assert n == q * U64_LIMIT + Wrap(n);
    if Wrap(n) + 1 == U64_LIMIT {
      assert n + 1 == (q + 1) * U64_LIMIT;
    }
  }

  function Apply(lib: Library, s: State, step: Step): State {
    match step
    case Install(pk) => s.(key := Some(pk), installed := s.installed + {pk})
    case Begin(pre, resp) =>
      if IsReceiptedAction(pre.action) && s.key.Some? then
        var d := Draft(s.key.value, pre, resp);
        s.(pending := s.pending + multiset{d}, begun := s.begun + multiset{d})
      else s
    case Commit(d) => if d in s.pending then Finish(lib, s, d) else s
    case Ask(customer) => s.(answers := s.answers + [Answer(customer, NextFor(s.counters, customer), |s.issued|)])
  }

  /** Number, sign, commit: one step under the counter lock. A failed signature leaves the count alone. */
  function Finish(lib: Library, s: State, d: Draft): State {
    var customer := d.pre.customer;
    var n := NextFor(s.counters, customer);
    var left := s.pending - multiset{d};
    match SignDocument(lib, d.pk, Decision(Body(lib, d, n)))
    case None => s.(pending := left, counters := s.counters[customer := n], failed := s.failed + multiset{d})
    case Some(sig) =>
      s.(pending := left, counters := s.counters[customer := Bump(n)], issued := s.issued + [Entry(d, n, sig)])
  }

  function Run(lib: Library, s: State, steps: seq<Step>): State
    decreases |steps|
  {
    if |steps| == 0 then s else Run(lib, Apply(lib, s, steps[0]), steps[1..])
  }

  /** The receipts of one customer, in the order of issue. */
  function Own(issued: seq<Entry>, customer: Str): (own: seq<Entry>)
    ensures forall e :: e in own <==> e in issued && e.draft.pre.customer == customer
  {
    if |issued| == 0 then []
    else
      var last := issued[|issued| - 1];
      assert issued == issued[..|issued| - 1] + [last];
      Own(issued[..|issued| - 1], customer) + if last.draft.pre.customer == customer then [last] else []
  }

  lemma OwnAppend(issued: seq<Entry>, e: Entry, customer: Str)
    ensures Own(issued + [e], customer)
         == Own(issued, customer) + if e.draft.pre.customer == customer then [e] else []
  {
    assert (issued + [e])[..|issued|] == issued;
  }

  function Drafts(issued: seq<Entry>): multiset<Draft> {
    if |issued| == 0 then multiset{}
    else Drafts(issued[..|issued| - 1]) + multiset{issued[|issued| - 1].draft}
  }

  lemma DraftsAppend(issued: seq<Entry>, e: Entry)
    ensures Drafts(issued + [e]) == Drafts(issued) + multiset{e.draft}
  {
    assert (issued + [e])[..|issued|] == issued;
  }

  /** The customer's k-th receipt carries k, and the counter says how many there are. */
  ghost predicate Chained(s: State, customer: Str) {
    var own := Own(s.issued, customer);
    && NextFor(s.counters, customer) == Wrap(|own|)
    && forall k :: 0 <= k < |own| ==> own[k].number == Wrap(k)
  }

  /** The draft carries a key that was resident and an action that gets receipts. */
  ghost predicate Admitted(s: State, d: Draft) {
    d.pk in s.installed && IsReceiptedAction(d.pre.action)
  }

  ghost predicate Genuine(lib: Library, s: State, e: Entry) {
    && Admitted(s, e.draft)
    && SignDocument(lib, e.draft.pk, Decision(Body(lib, e.draft, e.number))) == Some(e.signature)
  }

  ghost predicate Truthful(s: State, a: Answer) {
    a.at <= |s.issued| && a.seqNext == Wrap(|Own(s.issued[..a.at], a.customer)|)
  }

  ghost predicate Inv(lib: Library, s: State) {
    && (forall c :: Chained(s, c))
    && (s.key.Some? ==> s.key.value in s.installed)
    && s.begun == Drafts(s.issued) + s.failed + s.pending
    && (forall d :: d in s.pending ==> Admitted(s, d))
    && (forall e :: e in s.issued ==> Genuine(lib, s, e))
    && (forall a :: a in s.answers ==> Truthful(s, a))
  }

  lemma BootInv(lib: Library)
    ensures Inv(lib, BOOT)
  {
  }

  lemma CommitChains(lib: Library, s: State, d: Draft, customer: Str)
    requires Chained(s, customer) && d in s.pending
    ensures Chained(Finish(lib, s, d), customer)
  {
    hide SignDocument, Body, Own, Wrap, Bump;
    var t := Finish(lib, s, d);
    BumpWraps(|Own(s.issued, customer)|);
    if t.issued != s.issued {
      var e := t.issued[|s.issued|];
      OwnAppend(s.issued, e, customer);
    }
  }

  lemma CommitAnswers(lib: Library, s: State, d: Draft, a: Answer)
    requires Truthful(s, a) && d in s.pending
    ensures Truthful(Finish(lib, s, d), a)
  {
    hide SignDocument, Body, Own;
    var t := Finish(lib, s, d);
    assert t.issued[..a.at] == s.issued[..a.at];
  }

  /** What was begun is still accounted for. */
  lemma CommitConserves(lib: Library, s: State, d: Draft)
    requires s.begun == Drafts(s.issued) + s.failed + s.pending && d in s.pending
    ensures var t := Finish(lib, s, d); t.begun == Drafts(t.issued) + t.failed + t.pending
  {
    hide Drafts, Body, SignDocument, Bump;
    var t := Finish(lib, s, d);
    if t.issued != s.issued {
      DraftsAppend(s.issued, t.issued[|s.issued|]);
    }
  }

  lemma CommitGenuine(lib: Library, s: State, d: Draft)
    requires Admitted(s, d) && forall e :: e in s.issued ==> Genuine(lib, s, e)
    ensures var t := Finish(lib, s, d); forall e :: e in t.issued ==> Genuine(lib, t, e)
  {
    hide IsReceiptedAction, Body, Bump;
  }

  lemma CommitPending(lib: Library, s: State, d: Draft)
    requires forall x :: x in s.pending ==> Admitted(s, x)
    ensures var t := Finish(lib, s, d);
      t.key == s.key && t.installed == s.installed && t.answers == s.answers
      && forall x :: x in t.pending ==> Admitted(t, x)
  {
    hide IsReceiptedAction, Body, Bump, SignDocument;
  }

  lemma CommitInv(lib: Library, s: State, d: Draft)
    requires Inv(lib, s) && d in s.pending
    ensures Inv(lib, Finish(lib, s, d))
  {
    CommitConserves(lib, s, d);
    CommitGenuine(lib, s, d);
    CommitPending(lib, s, d);
    hide Finish, Drafts, Admitted, Genuine, Chained, Truthful;
    var t := Finish(lib, s, d);
    forall c ensures Chained(t, c) {
      CommitChains(lib, s, d, c);
    }
    forall a | a in t.answers ensures Truthful(t, a) {
      CommitAnswers(lib, s, d, a);
    }
  }

  /** A step that issues nothing keeps every chain. */
  lemma OtherStepsChain(lib: Library, s: State, step: Step)
    requires !step.Commit? && forall c :: Chained(s, c)
    ensures forall c :: Chained(Apply(lib, s, step), c)
  {
    hide Wrap, Own, IsReceiptedAction;
    forall c ensures Chained(Apply(lib, s, step), c) {
      assert Chained(s, c);
    }
  }

  lemma InstallInv(lib: Library, s: State, pk: Key)
    requires Inv(lib, s)
    ensures Inv(lib, Apply(lib, s, Install(pk)))
  {
    hide Wrap, Own, Drafts, IsReceiptedAction, Body, SignDocument, Chained;
    OtherStepsChain(lib, s, Install(pk));
  }

  lemma BeginInv(lib: Library, s: State, pre: Pre, resp: Response)
    requires Inv(lib, s)
    ensures Inv(lib, Apply(lib, s, Begin(pre, resp)))
  {
    hide Wrap, Own, Drafts, IsReceiptedAction, Body, SignDocument, Chained;
    OtherStepsChain(lib, s, Begin(pre, resp));
  }

  lemma AskInv(lib: Library, s: State, c: Str)
    requires Inv(lib, s)
    ensures Inv(lib, Apply(lib, s, Ask(c)))
  {
    hide Wrap, Own, Drafts, IsReceiptedAction, Body, SignDocument, Chained;
    OtherStepsChain(lib, s, Ask(c));
    ReadingIsTruthful(s, c);
  }

  lemma ApplyInv(lib: Library, s: State, step: Step)
    requires Inv(lib, s)
    ensures Inv(lib, Apply(lib, s, step))
  {
    hide Inv, Finish;
    match step
    case Install(pk) => InstallInv(lib, s, pk);
    case Begin(pre, resp) => BeginInv(lib, s, pre, resp);
    case Ask(c) => AskInv(lib, s, c);
    case Commit(d) =>
      if d in s.pending {
        CommitInv(lib, s, d);
      }
  }

  lemma ReadingIsTruthful(s: State, c: Str)
    requires Chained(s, c)
    ensures Truthful(s, Answer(c, NextFor(s.counters, c), |s.issued|))
  {
    hide Own, Wrap;
    assert s.issued[..|s.issued|] == s.issued;
  }

  /** Whatever the interleaving, the invariant holds of every reachable state. */
  lemma {:induction false} RunInv(lib: Library, s: State, steps: seq<Step>)
    requires Inv(lib, s)
    ensures Inv(lib, Run(lib, s, steps))
    decreases |steps|
  {
    hide Inv, Apply;
    if |steps| > 0 {
      ApplyInv(lib, s, steps[0]);
      RunInv(lib, Apply(lib, s, steps[0]), steps[1..]);
    }
  }

  function SeqText(lib: Library, e: Entry): Str {
    Body(lib, e.draft, e.number).seqNo
  }

  /**
   After any run, a customer's k-th receipt was signed over bytes that say the decision taken, for whom, on what
   request, and the number k, modulo 2^64.
   */
  lemma IssuedSays(lib: Library, steps: seq<Step>, customer: Str, k: nat)
    requires k < |Own(Run(lib, BOOT, steps).issued, customer)|
    ensures var e := Own(Run(lib, BOOT, steps).issued, customer)[k];
      var r := Body(lib, e.draft, e.number);
      && e.draft.pre.customer == customer
      && lib.sign(e.draft.pk, lib.keccak(Preimage(Decision(r)))) == Some(e.signature)
      && SaysDecision(r, lib.bootId, e.draft, k % 0x1_0000_0000_0000_0000)
  {
    hide Own, Run, Inv, SaysDecision, Body, Preimage;
    BootInv(lib);
    RunInv(lib, BOOT, steps);
    IssuedEntry(lib, Run(lib, BOOT, steps), customer, k);
    var e := Own(Run(lib, BOOT, steps).issued, customer)[k];
    BodySays(lib, e.draft, e.number);
  }

  lemma IssuedEntry(lib: Library, s: State, customer: Str, k: nat)
    requires Inv(lib, s) && k < |Own(s.issued, customer)|
    ensures var e := Own(s.issued, customer)[k];
      && e.draft.pre.customer == customer && e.number == k % 0x1_0000_0000_0000_0000
      && lib.sign(e.draft.pk, lib.keccak(Preimage(Decision(Body(lib, e.draft, e.number))))) == Some(e.signature)
  {
    hide Own, Body, Preimage, IsReceiptedAction;
    assert Chained(s, customer);
    assert Own(s.issued, customer)[k] in Own(s.issued, customer);
    assert Genuine(lib, s, Own(s.issued, customer)[k]);
  }

  /** After any run a customer's receipts read 0, 1, 2, … in the order of issue, each signed by a key once resident. */
  lemma GapFree(lib: Library, steps: seq<Step>, customer: Str, k: nat)
    requires k < |Own(Run(lib, BOOT, steps).issued, customer)|
    ensures var s := Run(lib, BOOT, steps);
      var e := Own(s.issued, customer)[k];
      SeqText(lib, e) == NumberText(k % U64_LIMIT) && Genuine(lib, s, e)
  {
    hide Own, Genuine, Run;
    var s := Run(lib, BOOT, steps);
    BootInv(lib);
    RunInv(lib, BOOT, steps);
    assert Chained(s, customer);
    assert Own(s.issued, customer)[k] in s.issued;
  }

  /** Every decision begun is issued once, failed to sign once, or is still on its way. */
  lemma DecisionsAreConserved(lib: Library, steps: seq<Step>)
    ensures var s := Run(lib, BOOT, steps); s.begun == Drafts(s.issued) + s.failed + s.pending
  {
    BootInv(lib);
    RunInv(lib, BOOT, steps);
  }

  lemma WrapBelow(k: nat)
    requires k < U64_LIMIT
    ensures Wrap(k) == k
  {
  }

  /** A number names one receipt of a customer exactly until the 64-bit counter comes round. */
  lemma NumbersAreUnique(lib: Library, steps: seq<Step>, customer: Str)
    ensures var own := Own(Run(lib, BOOT, steps).issued, customer);
      (forall j, k :: 0 <= j < k < |own| ==> SeqText(lib, own[j]) != SeqText(lib, own[k])) <==> |own| <= U64_LIMIT
  {
    hide Own, Run, NumberText, SeqText;
    var own := Own(Run(lib, BOOT, steps).issued, customer);
    if |own| <= U64_LIMIT {
      forall j, k | 0 <= j < k < |own| ensures SeqText(lib, own[j]) != SeqText(lib, own[k]) {
        SeqBelow(lib, steps, customer, j);
        SeqBelow(lib, steps, customer, k);
        NumberTextDecides(j, k);
      }
    } else {
      SeqBelow(lib, steps, customer, 0);
      SeqAtLimit(lib, steps, customer);
      assert SeqText(lib, own[0]) == SeqText(lib, own[U64_LIMIT]);
    }
  }

  lemma SeqBelow(lib: Library, steps: seq<Step>, customer: Str, k: nat)
    requires k < |Own(Run(lib, BOOT, steps).issued, customer)| && k < U64_LIMIT
    ensures SeqText(lib, Own(Run(lib, BOOT, steps).issued, customer)[k]) == NumberText(k)
  {
    hide Own, Run, NumberText, SeqText, Genuine;
    GapFree(lib, steps, customer, k);
    assert k % U64_LIMIT == k;
  }

  lemma SeqAtLimit(lib: Library, steps: seq<Step>, customer: Str)
    requires U64_LIMIT < |Own(Run(lib, BOOT, steps).issued, customer)|
    ensures SeqText(lib, Own(Run(lib, BOOT, steps).issued, customer)[U64_LIMIT]) == NumberText(0)
  {
    hide Own, Run, NumberText, SeqText, Genuine;
    GapFree(lib, steps, customer, U64_LIMIT);
    assert U64_LIMIT % U64_LIMIT == 0;
  }

  lemma NumberTextDecides(j: nat, k: nat)
    ensures NumberText(j) == NumberText(k) <==> j == k
  {
    if NumberText(j) == NumberText(k) {
      DecimalTextInjective(j, k);
    }
  }

  /** The held receipts include one numbered n. */
  ghost predicate Holds(held: set<Entry>, n: nat) {
    exists e :: e in held && e.number == n
  }

  /**
   A counter reading exposes every withheld receipt: a customer holds one receipt for each number below the reading
   exactly when it holds every receipt issued to it before the reading was taken.
   */
  lemma ReadingExposesLoss(lib: Library, steps: seq<Step>, a: Answer, held: set<Entry>)
    requires var s := Run(lib, BOOT, steps);
      && a in s.answers
      && |Own(s.issued, a.customer)| < U64_LIMIT
      && forall e :: e in held ==> e in Own(s.issued, a.customer)
    ensures var s := Run(lib, BOOT, steps);
      && a.at <= |s.issued|
      && ((forall n :: 0 <= n < a.seqNext ==> Holds(held, n))
         <==> forall e :: e in Own(s.issued[..a.at], a.customer) ==> e in held)
  {
    hide Own, Run, Inv, Wrap;
    var s := Run(lib, BOOT, steps);
    BootInv(lib);
    RunInv(lib, BOOT, steps);
    ReadingFacts(lib, s, a);
    var own, before := Own(s.issued, a.customer), Own(s.issued[..a.at], a.customer);
    if forall n :: 0 <= n < a.seqNext ==> Holds(held, n) {
      forall e | e in before ensures e in held {
        var k :| 0 <= k < |before| && before[k] == e;
        assert Holds(held, k);
        var h :| h in held && h.number == k;
        var m :| 0 <= m < |own| && own[m] == h;
        assert m == k;
      }
    }
    if forall e :: e in before ==> e in held {
      forall n | 0 <= n < a.seqNext ensures Holds(held, n) {
        assert before[n] in held && before[n].number == n;
      }
    }
  }

  /** Before the counter comes round: a reading counts the receipts issued so far, which start the customer's list. */
  lemma ReadingFacts(lib: Library, s: State, a: Answer)
    requires Inv(lib, s) && a in s.answers && |Own(s.issued, a.customer)| < U64_LIMIT
    ensures a.at <= |s.issued|
    ensures var own, before := Own(s.issued, a.customer), Own(s.issued[..a.at], a.customer);
      && a.seqNext == |before|
      && before <= own
      && forall k :: 0 <= k < |own| ==> own[k].number == k
  {
    hide Own, Wrap, Drafts, Genuine, Admitted;
    assert Truthful(s, a) && Chained(s, a.customer);
    var own, before := Own(s.issued, a.customer), Own(s.issued[..a.at], a.customer);
    OwnPrefix(s.issued, a.at, a.customer);
    WrapBelow(|before|);
    forall k | 0 <= k < |own| ensures own[k].number == k {
      WrapBelow(k);
    }
  }

  lemma {:induction false} OwnPrefix(issued: seq<Entry>, at: nat, customer: Str)
    requires at <= |issued|
    ensures Own(issued[..at], customer) <= Own(issued, customer)
  {
    if at < |issued| {
      var n := |issued| - 1;
      OwnPrefix(issued[..n], at, customer);
      assert issued[..n][..at] == issued[..at];
    } else {
      assert issued[..at] == issued;
    }
  }

  lemma CounterIs(lib: Library, s: State, customer: Str)
    requires Inv(lib, s)
    ensures NextFor(s.counters, customer) == |Own(s.issued, customer)| % U64_LIMIT
  {
    hide Own;
    assert Chained(s, customer);
  }

  // ---------------------------------------------------------------- the enclave's calls

  /** The resident key and the counters, with the history they stand for. */
  class Issuer {
    const lib: Library
    var key: Option<Key>
    var counters: map<Str, nat>
    ghost var history: State

    ghost predicate Valid()
      reads this
    {
      && key == history.key && counters == history.counters
      && history.pending == multiset{}
      && Inv(lib, history)
    }

    constructor (lib: Library)
      ensures Valid() && this.lib == lib && history == BOOT
    {
      this.lib := lib;
      key, counters, history := None, map[], BOOT;
      BootInv(lib);
    }

    method InstallKey(pk: Key)
      requires Valid()
      modifies this
      ensures Valid() && history == Apply(lib, old(history), Install(pk))
    {
      ApplyInv(lib, history, Install(pk));
      history := Apply(lib, history, Install(pk));
      if key == Some(pk) {
        return;
      }
      key := Some(pk);
    }

    /** A receipt is returned exactly when one is issued, and it is that one. */
    method IssuePre(pre: Pre, resp: Response) returns (r: Option<SignedReceipt>)
      requires Valid()
      modifies this
      ensures Valid()
      ensures key == old(key)
      ensures !IsReceiptedAction(pre.action) || old(key).None? ==> r.None? && history == old(history)
      ensures IsReceiptedAction(pre.action) && old(key).Some? ==>
                var d := Draft(old(key).value, pre, resp);
                history == Apply(lib, Apply(lib, old(history), Begin(pre, resp)), Commit(d))
      ensures r.None? ==> history.issued == old(history).issued
      ensures r.Some? ==>
                && |history.issued| == |old(history).issued| + 1
                && history.issued[..|old(history).issued|] == old(history).issued
                && var e := history.issued[|old(history).issued|];
                var d := Draft(old(key).value, pre, resp);
                && r.value == SignedReceipt(Body(lib, d, NextFor(old(counters), pre.customer)), e.signature)
                && SaysDecision(r.value.receipt, lib.bootId, d, |Own(old(history).issued, pre.customer)| % U64_LIMIT)
    {
      hide Preimage, Body, Inv, SaysDecision, Own;
      CounterIs(lib, history, pre.customer);
      if !IsReceiptedAction(pre.action) || key.None? {
        return None;
      }
      var pk := key.value;
      ghost var d := Draft(pk, pre, resp);
      ApplyInv(lib, history, Begin(pre, resp));
      ApplyInv(lib, Apply(lib, history, Begin(pre, resp)), Commit(d));
      history := Apply(lib, Apply(lib, history, Begin(pre, resp)), Commit(d));
      if pre.customer !in counters {
        counters := counters[pre.customer := 0];
      }
      var candidate := counters[pre.customer];
      var receipt := Body(lib, Draft(pk, pre, resp), candidate);
      BodySays(lib, d, candidate);
      var sig := SignReceipt(lib, pk, receipt);
      if sig.None? {
        return None;
      }
      counters := counters[pre.customer := Bump(candidate)];
      r := Some(SignedReceipt(receipt, sig.value));
    }

    method SeqNextFor(customer: Str) returns (n: nat)
      requires Valid()
      ensures n == |Own(history.issued, customer)| % U64_LIMIT
    {
      CounterIs(lib, history, customer);
      n := if customer in counters then counters[customer] else 0;
    }

    /** The signed answer counts the receipts issued to this customer; the failures come in the order listed. */
    method IssueHeartbeat(customer: Str, clientNonce: Str, registryVersion: nat, entryHash: Option<Str>)
        returns (r: Result<SignedHeartbeat, Unavailable>)
      requires Valid()
      ensures key.None? <==> r == Err(NoKey)
      ensures key.Some? && entryHash.None? <==> r == Err(EntryNotCanonical)
      ensures key.Some? && entryHash.Some? ==>
                var hb := Heartbeat(ONE, lib.bootId, customer, NumberText(|Own(history.issued, customer)| % U64_LIMIT),
                                    clientNonce, NumberText(registryVersion), entryHash.value);
                var sig := SignDocument(lib, key.value, Beat(hb));
                r == if sig.None? then Err(SignFailed) else Ok(SignedHeartbeat(hb, sig.value))
    {
      hide Preimage, Own, Wrap, Inv;
      if key.None? {
        return Err(NoKey);
      }
      if entryHash.None? {
        return Err(EntryNotCanonical);
      }
      var n := SeqNextFor(customer);
      var hb := Heartbeat(ONE, lib.bootId, customer, NumberText(n), clientNonce, NumberText(registryVersion),
                          entryHash.value);
      var sig := SignHeartbeat(lib, key.value, hb);
      r := if sig.None? then Err(SignFailed) else Ok(SignedHeartbeat(hb, sig.value));
    }
  }

  method SignReceipt(lib: Library, pk: Key, receipt: Receipt) returns (sig: Option<Signature>)
    ensures sig == SignDocument(lib, pk, Decision(receipt))
  {
    hide J.CanonicalBytes, J.NumberFree, J.DistinctKeys;
    ReceiptNamesDiffer();
    var names, values := ReceiptNames(), ReceiptValues(receipt);
    RecordIsCanonical(names, values);
    hide Record, ReceiptNames, ReceiptValues;
    var canonical := J.CanonicalV1(Record(names, values));
    sig := lib.sign(pk, lib.keccak(RECEIPT_DOMAIN + canonical.value));
  }

  method SignHeartbeat(lib: Library, pk: Key, heartbeat: Heartbeat) returns (sig: Option<Signature>)
    ensures sig == SignDocument(lib, pk, Beat(heartbeat))
  {
    hide J.CanonicalBytes, J.NumberFree, J.DistinctKeys;
    HeartbeatNamesDiffer();
    var names, values := HeartbeatNames(), HeartbeatValues(heartbeat);
    RecordIsCanonical(names, values);
    hide Record, HeartbeatNames, HeartbeatValues;
    var canonical := J.CanonicalV1(Record(names, values));
    sig := lib.sign(pk, lib.keccak(HEARTBEAT_DOMAIN + canonical.value));
  }
}
