/** The gateway's bearer-token configuration: parsing it, looking a token up, and reading a tenant's token back. */
module Auth {
  import opened Lex
  import opened Wrappers
  import opened Listing
  import opened Strings
  import opened TokenTable

  datatype AuthConfigError = AuthRequired | NotUnicode | CustomerLabelHasDelimiter(customer: string) | NoValidEntries

  /** An environment variable as read. */
  datatype EnvVar = Unset | NonUnicode | Value(text: string)

  datatype Pair = Pair(token: string, customer: string)

  /** One entry: skipped, refused for its customer, or a token and its customer. */
  datatype Entry = Skipped | Refused(customer: string) | Accepted(pair: Pair)

  /** The token and customer of an entry that has both. */
  function FieldsOf(entry: string): Option<Pair> {
    var halves := SplitOnce(Trim(entry), ':');
    if halves.None? then None
    else
      var token, customer := Trim(halves.value.0), Trim(halves.value.1);
      if token == "" || customer == "" then None else Some(Pair(token, customer))
  }

  predicate HasDelimiter(customer: string) {
    ':' in customer || '/' in customer
  }

  function ParseEntry(entry: string): Entry {
    var pair := FieldsOf(entry);
    if Trim(entry) == "" || pair.None? then Skipped
    else if HasDelimiter(pair.value.customer) then Refused(pair.value.customer)
    else Accepted(pair.value)
  }

  /** The entries that have a token and a customer, in order. */
  function Pairs(entries: seq<string>): seq<Pair> {
    if |entries| == 0 then []
    else
      var rest := Pairs(entries[..|entries| - 1]);
      var pair := FieldsOf(entries[|entries| - 1]);
      if pair.Some? then rest + [pair.value] else rest
  }

  /** The customer of the first entry refused for its customer. */
  function FirstRefused(entries: seq<string>): Option<string> {
    if |entries| == 0 then None
    else
      var earlier := FirstRefused(entries[..|entries| - 1]);
      var last := ParseEntry(entries[|entries| - 1]);
      if earlier.Some? then earlier else if last.Refused? then Some(last.customer) else None
  }

  function Labels(pairs: seq<Pair>): (l: seq<string>)
    ensures |l| == |pairs| && forall i :: 0 <= i < |l| ==> l[i] == pairs[i].customer
  {
    seq(|pairs|, i requires 0 <= i < |pairs| => pairs[i].customer)
  }

  function Tokens(pairs: seq<Pair>): (t: seq<string>)
    ensures |t| == |pairs| && forall i :: 0 <= i < |t| ==> t[i] == pairs[i].token
  {
    seq(|pairs|, i requires 0 <= i < |pairs| => pairs[i].token)
  }

  function Digests(hash: string -> Bytes, pairs: seq<Pair>): (d: seq<Bytes>)
    ensures |d| == |pairs| && forall i :: 0 <= i < |d| ==> d[i] == hash(pairs[i].token)
  {
    seq(|pairs|, i requires 0 <= i < |pairs| => hash(pairs[i].token))
  }

  /** The configured state keeps digests and labels, not tokens. */
  datatype AuthState = AuthState(digests: seq<Bytes>, labels: seq<string>)

  method FromEnvVar(hash: string -> Bytes, v: EnvVar, allowNoAuth: bool, requireAuth: bool)
    returns (r: Result<AuthState, AuthConfigError>)
    ensures v.NonUnicode? ==> r == Err(NotUnicode)
    ensures v.Unset? || (v.Value? && Trim(v.text) == "") ==>
      r == if allowNoAuth && !requireAuth then Ok(AuthState([], [])) else Err(AuthRequired)
    ensures v.Value? && Trim(v.text) != "" ==>
      var entries := Split(v.text, ',');
      var pairs := Pairs(entries);
      r == if FirstRefused(entries).Some? then Err(CustomerLabelHasDelimiter(FirstRefused(entries).value))
           else if pairs == [] then Err(NoValidEntries)
           else Ok(AuthState(Digests(hash, pairs), Labels(pairs)))
  {
    if v.NonUnicode? {
      return Err(NotUnicode);
    }
    if v.Unset? || Trim(v.text) == "" {
      return if allowNoAuth && !requireAuth then Ok(AuthState([], [])) else Err(AuthRequired);
    }
    r := ParseEntries(hash, Split(v.text, ','));
  }

  method ParseEntries(hash: string -> Bytes, entries: seq<string>) returns (r: Result<AuthState, AuthConfigError>)
    ensures var pairs := Pairs(entries);
      r == if FirstRefused(entries).Some? then Err(CustomerLabelHasDelimiter(FirstRefused(entries).value))
           else if pairs == [] then Err(NoValidEntries)
           else Ok(AuthState(Digests(hash, pairs), Labels(pairs)))
  {
    hide FieldsOf, ParseEntry;
    var digests, labels := [], [];
    for i := 0 to |entries|
      invariant FirstRefused(entries[..i]).None?
      invariant digests == Digests(hash, Pairs(entries[..i])) && labels == Labels(Pairs(entries[..i]))
    {
      assert entries[..i + 1][..i] == entries[..i] && entries[..i + 1][i] == entries[i];
      var parsed := ParseEntry(entries[i]);
      ParsedFields(entries[i]);
      if parsed.Refused? {
        RefusedStays(entries, i + 1);
        return Err(CustomerLabelHasDelimiter(parsed.customer));
      }
      if parsed.Accepted? {
        digests := digests + [hash(parsed.pair.token)];
        labels := labels + [parsed.pair.customer];
      }
    }
    assert entries[..|entries|] == entries;
    r := if labels == [] then Err(NoValidEntries) else Ok(AuthState(digests, labels));
  }

  lemma ParsedFields(entry: string)
    ensures ParseEntry(entry).Accepted? ==> FieldsOf(entry) == Some(ParseEntry(entry).pair)
    ensures ParseEntry(entry).Skipped? ==> FieldsOf(entry).None?
  {
  }

  lemma {:induction false} RefusedStays(entries: seq<string>, n: nat)
    requires n <= |entries| && FirstRefused(entries[..n]).Some?
    ensures FirstRefused(entries) == FirstRefused(entries[..n])
    decreases |entries|
  {
    if n == |entries| {
      assert entries[..n] == entries;
    } else {
      assert entries[..|entries| - 1][..n] == entries[..n];
      RefusedStays(entries[..|entries| - 1], n);
    }
  }

  // ---------------------------------------------------------------- what the configuration says

  /** Blanks in an entry: before the token, around the colon, and after the customer. */
  datatype Blanks = Blanks(a: string, b: string, c: string, d: string) {
    predicate Valid() {
      AllWhitespace(a) && AllWhitespace(b) && AllWhitespace(c) && AllWhitespace(d)
    }
  }

  function Spaced(p: Pair, s: Blanks): string {
    s.a + p.token + s.b + ":" + s.c + p.customer + s.d
  }

  /** Text without blanks around it, or none. */
  predicate Field(s: string) {
    s == "" || Tidy(s)
  }

  /**
   An entry is read as what was written: what precedes the first colon is the token, what follows it the customer,
   both without the blanks around them. If one is missing, or the colon, there is no entry.
   */
  lemma SpacedReads(p: Pair, s: Blanks)
    requires Field(p.token) && Field(p.customer) && ':' !in p.token && s.Valid()
    ensures FieldsOf(Spaced(p, s)) == if p.token == "" || p.customer == "" then None else Some(p)
  {
    hide IsWhitespace, Trim, FieldsOf, Spaced, Field, Front, Back;
    FrontReads(s.a, p.token, s.b);
    BackReads(s.c, p.customer, s.d);
    SpacedIs(p, s);
    var f, b := Front(s.a, p.token, s.b), Back(s.c, p.customer, s.d);
    HalvesRead(f.0, f.1, b.0, b.1);
  }

  /** What precedes the colon: the blanks that trimming the entry takes, and the rest. */
  function Front(a: string, token: string, b: string): (string, string) {
    if token == "" then (a + b, "") else (a, token + b)
  }

  /** What follows the colon: what trimming the entry leaves, and the blanks it takes. */
  function Back(c: string, customer: string, d: string): (string, string) {
    if customer == "" then ("", c + d) else (c + customer, d)
  }

  lemma SpacedIs(p: Pair, s: Blanks)
    ensures var f, b := Front(s.a, p.token, s.b), Back(s.c, p.customer, s.d);
      Spaced(p, s) == f.0 + (f.1 + ":" + b.0) + b.1
  {
  }

  lemma FrontReads(a: string, token: string, b: string)
    requires AllWhitespace(a) && AllWhitespace(b) && Field(token) && ':' !in token
    ensures var f := Front(a, token, b);
      && AllWhitespace(f.0) && ':' !in f.1 && (f.1 != "" ==> !IsWhitespace(f.1[0])) && Trim(f.1) == token
  {
    hide IsWhitespace, Trim;
    HalfTrims(Front(a, token, b).1, "", token, b);
    ColonStays(b);
  }

  lemma BackReads(c: string, customer: string, d: string)
    requires AllWhitespace(c) && AllWhitespace(d) && Field(customer)
    ensures var f := Back(c, customer, d);
      && AllWhitespace(f.1) && (f.0 != "" ==> !IsWhitespace(f.0[|f.0| - 1])) && Trim(f.0) == customer
  {
    hide IsWhitespace, Trim;
    HalfTrims(Back(c, customer, d).0, c, customer, "");
  }

  lemma HalvesRead(front: string, x: string, y: string, back: string)
    requires AllWhitespace(front) && AllWhitespace(back) && ':' !in x
    requires (x != "" ==> !IsWhitespace(x[0])) && (y != "" ==> !IsWhitespace(y[|y| - 1]))
    ensures FieldsOf(front + (x + ":" + y) + back)
         == if Trim(x) == "" || Trim(y) == "" then None else Some(Pair(Trim(x), Trim(y)))
  {
    hide IsWhitespace, Trim;
    var middle := x + ":" + y;
    ColonStays("");
    assert Tidy(middle);
    TrimPadded(front, middle, back);
    FindIs(middle, ':', |x|);
    assert middle[..|x|] == x && middle[|x| + 1..] == y;
  }

  lemma ColonStays(s: string)
    requires AllWhitespace(s)
    ensures !IsWhitespace(':') && ':' !in s
  {
  }

  lemma HalfTrims(half: string, a: string, s: string, d: string)
    requires AllWhitespace(a) && AllWhitespace(d) && Field(s) && half == if s == "" then "" else a + s + d
    ensures Trim(half) == s
  {
    hide IsWhitespace, Trim;
    if s == "" {
      TrimPadded("", "", "");
      assert half == "" + "" + "";
    } else {
      TrimPadded(a, s, d);
    }
  }

  lemma NoColonNoEntry(entry: string)
    requires ':' !in entry
    ensures ParseEntry(entry) == Skipped && FieldsOf(entry).None?
  {
    hide IsWhitespace;
    var i, j := TrimIs(entry);
    hide Trim;
    FindIs(Trim(entry), ':', |Trim(entry)|);
  }

  /** A token and a customer that can be written into the configuration. */
  predicate Writable(p: Pair) {
    && Tidy(p.token) && Tidy(p.customer)
    && ':' !in p.token && ',' !in p.token && ',' !in p.customer && !HasDelimiter(p.customer)
  }

  function Written(p: Pair): string {
    p.token + ":" + p.customer
  }

  /** The configuration as an operator writes it. */
  function Configuration(pairs: seq<Pair>): string {
    if |pairs| == 0 then ""
    else if |pairs| == 1 then Written(pairs[0])
    else Written(pairs[0]) + "," + Configuration(pairs[1..])
  }

  lemma EntryReads(p: Pair)
    requires Writable(p)
    ensures ParseEntry(Written(p)) == Accepted(p) && FieldsOf(Written(p)) == Some(p) && ',' !in Written(p)
  {
    hide IsWhitespace, Trim;
    var none := Blanks("", "", "", "");
    assert Written(p) == Spaced(p, none);
    SpacedReads(p, none);
    TrimPadded("", Written(p), "");
    assert "" + Written(p) + "" == Written(p);
  }

  function WrittenAll(pairs: seq<Pair>): (w: seq<string>)
    ensures |w| == |pairs| && forall i :: 0 <= i < |w| ==> w[i] == Written(pairs[i])
  {
    seq(|pairs|, i requires 0 <= i < |pairs| => Written(pairs[i]))
  }

  lemma {:induction false} ConfigurationSplits(pairs: seq<Pair>)
    requires |pairs| > 0 && forall i :: 0 <= i < |pairs| ==> Writable(pairs[i])
    ensures Split(Configuration(pairs), ',') == WrittenAll(pairs)
  {
    hide Writable, Written, Split;
    EntryReads(pairs[0]);
    var first := Written(pairs[0]);
    if |pairs| == 1 {
      SplitFirst(first, "", ',');
    } else {
      SplitFirst(first, Configuration(pairs[1..]), ',');
      ConfigurationSplits(pairs[1..]);
      assert WrittenAll(pairs) == [first] + WrittenAll(pairs[1..]);
    }
  }

  lemma {:induction false} WrittenReads(pairs: seq<Pair>)
    requires forall i :: 0 <= i < |pairs| ==> Writable(pairs[i])
    ensures Pairs(WrittenAll(pairs)) == pairs && FirstRefused(WrittenAll(pairs)).None?
  {
    hide Writable, Written, FieldsOf, ParseEntry;
    if |pairs| > 0 {
      var n := |pairs| - 1;
      WrittenReads(pairs[..n]);
      EntryReads(pairs[n]);
      assert WrittenAll(pairs)[..n] == WrittenAll(pairs[..n]);
      assert pairs == pairs[..n] + [pairs[n]];
    }
  }

  /** What an operator writes is what the gateway reads, pair for pair and in order, with nothing refused. */
  lemma ConfigurationReads(pairs: seq<Pair>)
    requires |pairs| > 0 && forall i :: 0 <= i < |pairs| ==> Writable(pairs[i])
    ensures Pairs(Split(Configuration(pairs), ',')) == pairs
    ensures FirstRefused(Split(Configuration(pairs), ',')).None?
  {
    hide Writable, Configuration, Split, Pairs, FirstRefused;
    ConfigurationSplits(pairs);
    WrittenReads(pairs);
  }

  /** An entry is refused exactly for a colon or a slash in its customer. */
  lemma RefusedExactly(entry: string)
    ensures ParseEntry(entry).Refused? <==>
      FieldsOf(entry).Some? && (':' in FieldsOf(entry).value.customer || '/' in FieldsOf(entry).value.customer)
  {
    hide Trim, Split;
    if FieldsOf(entry).Some? {
      assert Find(Trim(entry), ':') < |Trim(entry)|;
    }
  }

  /** The customer of the last configured entry whose digest matches, by the branch-free scan. */
  method Lookup(hash: string -> Bytes, auth: AuthState, token: string) returns (customer: Option<string>)
    requires |auth.digests| == |auth.labels| && |auth.labels| < Ones(WORD)
    ensures var m := LastMatch(auth.digests, hash(token));
      customer == if m.Some? then Some(auth.labels[m.value]) else None
  {
    hide Ones;
    var m := Scan(auth.digests, hash(token));
    customer := if m.Some? then Some(auth.labels[m.value]) else None;
  }

  /** The token of the first entry with this customer. */
  method RawTokenForCustomer(raw: string, customer: string) returns (token: Option<string>)
    ensures token == FirstTokenFor(Pairs(Split(raw, ',')), customer)
  {
    hide Trim, Split;
    var entries := Split(raw, ',');
    for i := 0 to |entries|
      invariant customer !in Labels(Pairs(entries[..i]))
    {
      assert entries[..i + 1][..i] == entries[..i];
      var pair := FieldsOf(entries[i]);
      if pair.Some? && pair.value.customer == customer {
        FirstTokenFound(entries, i, customer);
        return Some(pair.value.token);
      }
    }
    assert entries[..|entries|] == entries;
    NoTokenFor(Pairs(entries), customer);
    token := None;
  }

  function FirstTokenFor(pairs: seq<Pair>, customer: string): Option<string> {
    if |pairs| == 0 then None
    else if pairs[0].customer == customer then Some(pairs[0].token)
    else FirstTokenFor(pairs[1..], customer)
  }

  /** A customer has a token exactly when it is configured; the token is that of its first entry. */
  lemma {:induction false} FirstTokenIsFirst(pairs: seq<Pair>, customer: string)
    ensures FirstTokenFor(pairs, customer).Some? <==> customer in Labels(pairs)
    ensures FirstTokenFor(pairs, customer).Some? ==>
      var i := Find(Labels(pairs), customer);
      i < |pairs| && pairs[i] == Pair(FirstTokenFor(pairs, customer).value, customer)
  {
    if |pairs| > 0 {
      FirstTokenIsFirst(pairs[1..], customer);
      assert Labels(pairs)[1..] == Labels(pairs[1..]);
      assert Labels(pairs) == [pairs[0].customer] + Labels(pairs[1..]);
    }
  }

  lemma NoTokenFor(pairs: seq<Pair>, customer: string)
    requires customer !in Labels(pairs)
    ensures FirstTokenFor(pairs, customer).None?
  {
    FirstTokenIsFirst(pairs, customer);
  }

  lemma {:induction false} FirstTokenInPrefix(a: seq<Pair>, b: seq<Pair>, customer: string)
    ensures FirstTokenFor(a + b, customer)
         == if FirstTokenFor(a, customer).Some? then FirstTokenFor(a, customer) else FirstTokenFor(b, customer)
  {
    if |a| == 0 {
      assert a + b == b;
    } else {
      assert (a + b)[1..] == a[1..] + b;
      FirstTokenInPrefix(a[1..], b, customer);
    }
  }

  lemma {:induction false} PairsSplit(entries: seq<string>, n: nat)
    requires n <= |entries|
    ensures Pairs(entries) == Pairs(entries[..n]) + Pairs(entries[n..])
    decreases |entries|
  {
    hide FieldsOf;
    if n == |entries| {
      assert entries[..n] == entries;
    } else {
      var m := |entries| - 1;
      PairsSplit(entries[..m], n);
      assert entries[..m][..n] == entries[..n];
      var tail := entries[n..];
      assert entries[..m][n..] == tail[..|tail| - 1] && tail[|tail| - 1] == entries[m];
      var pair := FieldsOf(entries[m]);
      if pair.Some? {
        ConcatAssoc(Pairs(entries[..n]), Pairs(tail[..|tail| - 1]), [pair.value]);
      }
    }
  }

  lemma FirstTokenFound(entries: seq<string>, i: nat, customer: string)
    requires i < |entries| && customer !in Labels(Pairs(entries[..i]))
    requires FieldsOf(entries[i]).Some? && FieldsOf(entries[i]).value.customer == customer
    ensures FirstTokenFor(Pairs(entries), customer) == Some(FieldsOf(entries[i]).value.token)
  {
    hide FieldsOf;
    var found := FieldsOf(entries[i]).value;
    PairsSplit(entries, i + 1);
    assert entries[..i + 1][..i] == entries[..i];
    NoTokenFor(Pairs(entries[..i]), customer);
    assert Pairs(entries[..i + 1]) == Pairs(entries[..i]) + [found];
    FirstTokenInPrefix(Pairs(entries[..i]), [found], customer);
    FirstTokenInPrefix(Pairs(entries[..i + 1]), Pairs(entries[i + 1..]), customer);
  }

  // ---------------------------------------------------------------- reading back and looking up

  ghost predicate CollisionFree(hash: string -> Bytes, tokens: seq<string>) {
    forall s, t :: s in tokens && t in tokens && hash(s) == hash(t) ==> s == t
  }

  /** The customer a token resolves to. */
  function Resolve(hash: string -> Bytes, pairs: seq<Pair>, token: string): Option<string> {
    var m := LastMatch(Digests(hash, pairs), hash(token));
    if m.Some? then Some(pairs[m.value].customer) else None
  }

  /** Every other tenant's entry with this token is followed by one of the customer's own. */
  predicate Reclaims(pairs: seq<Pair>, token: string, customer: string) {
    forall j :: 0 <= j < |pairs| && pairs[j].token == token && pairs[j].customer != customer ==>
      exists k :: j < k < |pairs| && pairs[k] == Pair(token, customer)
  }

  /** A configured token resolves to the entry that holds it last. */
  lemma ResolvesToLast(hash: string -> Bytes, pairs: seq<Pair>, i: nat) returns (m: nat)
    requires i < |pairs| && CollisionFree(hash, Tokens(pairs))
    ensures m < |pairs| && pairs[m].token == pairs[i].token
    ensures forall j :: m < j < |pairs| ==> pairs[j].token != pairs[i].token
    ensures Resolve(hash, pairs, pairs[i].token) == Some(pairs[m].customer)
  {
    var digests := Digests(hash, pairs);
    LastMatchIsLast(digests, hash(pairs[i].token));
    assert digests[i] == hash(pairs[i].token);
    m := LastMatch(digests, hash(pairs[i].token)).value;
    assert Tokens(pairs)[i] in Tokens(pairs) && Tokens(pairs)[m] in Tokens(pairs);
    forall j | m < j < |pairs| ensures pairs[j].token != pairs[i].token {
      assert digests[m + 1..][j - m - 1] == digests[j];
    }
  }

  /** When a tenant's token, read back from the configuration, authenticates as that tenant. */
  lemma ReadBackExactly(hash: string -> Bytes, pairs: seq<Pair>, customer: string)
    requires CollisionFree(hash, Tokens(pairs))
    ensures FirstTokenFor(pairs, customer).Some? <==> customer in Labels(pairs)
    ensures FirstTokenFor(pairs, customer).Some? ==>
      var token := FirstTokenFor(pairs, customer).value;
      Resolve(hash, pairs, token) == Some(customer) <==> Reclaims(pairs, token, customer)
  {
    FirstTokenIsFirst(pairs, customer);
    if FirstTokenFor(pairs, customer).Some? {
      var token := FirstTokenFor(pairs, customer).value;
      var i := Find(Labels(pairs), customer);
      hide Resolve, CollisionFree;
      var m := ResolvesToLast(hash, pairs, i);
      if pairs[m].customer == customer {
        assert pairs[m] == Pair(token, customer);
      }
    }
  }

  /** With distinct tokens every tenant's token reads back as its own. */
  lemma TokenReadBackResolves(hash: string -> Bytes, pairs: seq<Pair>, customer: string)
    requires NoDuplicates(Tokens(pairs)) && CollisionFree(hash, Tokens(pairs)) && customer in Labels(pairs)
    ensures FirstTokenFor(pairs, customer).Some?
    ensures Resolve(hash, pairs, FirstTokenFor(pairs, customer).value) == Some(customer)
  {
    ReadBackExactly(hash, pairs, customer);
    FirstTokenIsFirst(pairs, customer);
    DistinctReclaims(pairs, Find(Labels(pairs), customer));
  }

  lemma DistinctReclaims(pairs: seq<Pair>, i: nat)
    requires i < |pairs| && NoDuplicates(Tokens(pairs))
    ensures Reclaims(pairs, pairs[i].token, pairs[i].customer)
  {
    forall j | 0 <= j < |pairs| && pairs[j].token == pairs[i].token ensures pairs[j].customer == pairs[i].customer {
      assert Tokens(pairs)[i] == Tokens(pairs)[j];
    }
  }

  /** A token configured twice reads back for one tenant and authenticates as the other. */
  lemma SharedTokenResolvesToLast(hash: string -> Bytes, token: string, a: string, b: string)
    requires a != b
    ensures var pairs := [Pair(token, a), Pair(token, b)];
      FirstTokenFor(pairs, a) == Some(token) && Resolve(hash, pairs, token) == Some(b)
  {
    var pairs := [Pair(token, a), Pair(token, b)];
    LastMatchIsLast(Digests(hash, pairs), hash(token));
    assert Digests(hash, pairs)[1] == hash(token);
  }
}
