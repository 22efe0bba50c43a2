/**
 The tenant registry's challenge/refresh protocol as a state machine over interleaved steps. A refresh peeks at the
 pending nonce, verifies its signature with no lock held, installs under the registry's write lock, and clears the
 nonce while still holding it; challenges and other refreshes may run between any two of these steps.
 */
module Registry {
  import opened Wrappers
  import opened Digits
  import opened Text
  import TokenTable

  datatype RegistryError =
    | NoPubkey
    | BadPubkey
    | NoPendingNonce
    | NonceMismatch
    | BadNonceHex
    | BadSignature
    | SignatureInvalid
    | NonMonotonicVersion(got: nat, maxKnown: nat)
    | Empty
    | MalformedEntries
    | UnsafeId
    | ReservedVenue
    | BadMode

  type u64 = n: nat | n < 0x1_0000_0000_0000_0000

  datatype TenantMode = Active | CancelOnly | Halted

  /** An entry as signed by the control plane. */
  datatype RefreshEntry = RefreshEntry(token: Bytes, customer: Bytes, venues: seq<Bytes>, mode: Option<Bytes>)

  /** An entry as it resides: the token only as its keyed hash. */
  datatype TenantEntry = TenantEntry(tokenHmac: Bytes, customer: Bytes, venues: seq<Bytes>, mode: TenantMode)

  datatype Resident = Resident(entries: seq<TenantEntry>, version: nat)

  datatype Request = Request(entriesJson: Bytes, nonceHex: Bytes, version: u64, signatureHex: Bytes)

  /** Library code: hex and JSON decoding, the content hash, signature verification, the token hash. */
  datatype Library = Library(
    key: Option<RegistryError>,
    unhex: Bytes -> Option<Bytes>,
    hash: Bytes -> Bytes,
    verifies: (Bytes, Bytes) -> bool,
    parse: Bytes -> Option<seq<RefreshEntry>>,
    tokenHmac: Bytes -> Bytes)

  // ---------------------------------------------------------------- ids and venues

  predicate IsSafeId(s: Bytes) {
    0 < |s| <= 64 && forall i :: 0 <= i < |s| ==> IsAlnum(s[i]) || s[i] == 45 || s[i] == 95
  }

  predicate EqIgnoreCase(a: Bytes, b: Bytes) {
    |a| == |b| && forall i :: 0 <= i < |a| ==> Lower(a[i]) == Lower(b[i])
  }

  const X402_VENUE: Bytes := Ascii("x402")
  const DATA_SIGNING_VENUE: Bytes := Ascii("data-signing")
  const X402_OWNER: Bytes := Ascii("x402-00000000-0000-0000-0000-0000000x402")
  const DATA_SIGNING_OWNER: Bytes := Ascii("attested-data")

  function ReservedVenueOwner(venue: Bytes): Option<Bytes> {
    if EqIgnoreCase(venue, X402_VENUE) then Some(X402_OWNER)
    else if EqIgnoreCase(venue, DATA_SIGNING_VENUE) then Some(DATA_SIGNING_OWNER)
    else None
  }

  predicate GrantsReservedVenue(customer: Bytes, venues: seq<Bytes>) {
    exists i :: 0 <= i < |venues| && ReservedVenueOwner(venues[i]).Some?
                && ReservedVenueOwner(venues[i]).value != customer
  }

  function ParseMode(s: Bytes): Option<TenantMode> {
    if s == Ascii("active") then Some(Active)
    else if s == Ascii("cancel_only") then Some(CancelOnly)
    else if s == Ascii("halted") then Some(Halted)
    else None
  }

  /** The mode a signed entry asks for: none means active. */
  predicate Asks(mode: Option<Bytes>, m: TenantMode) {
    match m
    case Active => mode == None || mode == Some(Ascii("active"))
    case CancelOnly => mode == Some(Ascii("cancel_only"))
    case Halted => mode == Some(Ascii("halted"))
  }

  /** An entry resides in the mode it asks for, and is refused exactly when it asks for none of the three. */
  lemma ModeIsAsked(lib: Library, e: RefreshEntry)
    ensures EntryFault(e).None? ==> Asks(e.mode, ToResident(lib, e).mode)
    ensures EntryFault(e) == Some(BadMode) ==> forall m :: !Asks(e.mode, m)
    ensures (forall m :: !Asks(e.mode, m)) ==> EntryFault(e).Some?
  {
    AsciiInjective("active", "cancel_only");
    AsciiInjective("active", "halted");
    AsciiInjective("cancel_only", "halted");
    hide IsSafeId, GrantsReservedVenue, Ascii;
    assert e.mode == Some(Ascii("active")) || e.mode == None ==> Asks(e.mode, Active);
    assert e.mode == Some(Ascii("cancel_only")) ==> Asks(e.mode, CancelOnly);
    assert e.mode == Some(Ascii("halted")) ==> Asks(e.mode, Halted);
  }

  /** The text, with any of its letters in upper case. */
  predicate Spelt(v: Bytes, text: string) {
    && |v| == |text|
    && forall i :: 0 <= i < |v| ==>
         v[i] == text[i] as int || ('a' <= text[i] <= 'z' && v[i] == text[i] as int - 32)
  }

  /** Who may hold a venue: a reserved one, however capitalized, only its owner. */
  predicate MayHold(customer: Bytes, venue: Bytes) {
    && (Spelt(venue, "x402") ==> customer == Ascii("x402-00000000-0000-0000-0000-0000000x402"))
    && (Spelt(venue, "data-signing") ==> customer == Ascii("attested-data"))
  }

  lemma SpeltIgnoresCase(v: Bytes, text: string)
    requires forall i :: 0 <= i < |text| ==> text[i] as int < 128 && !('A' <= text[i] <= 'Z')
    ensures EqIgnoreCase(v, Ascii(text)) <==> Spelt(v, text)
  {
    var t := Ascii(text);
    if EqIgnoreCase(v, t) {
      forall i | 0 <= i < |v|
        ensures v[i] == text[i] as int || ('a' <= text[i] <= 'z' && v[i] == text[i] as int - 32)
      {
        assert Lower(v[i]) == Lower(t[i]);
      }
    }
    if Spelt(v, text) {
      forall i | 0 <= i < |v| ensures Lower(v[i]) == Lower(t[i]) {
      }
    }
  }

  /** The blocklist refuses exactly the grants to others. */
  lemma ReservedMeansOwned(customer: Bytes, venue: Bytes)
    ensures MayHold(customer, venue)
      <==> (ReservedVenueOwner(venue).Some? ==> ReservedVenueOwner(venue).value == customer)
  {
    SpeltIgnoresCase(venue, "x402");
    SpeltIgnoresCase(venue, "data-signing");
    assert !(Spelt(venue, "x402") && Spelt(venue, "data-signing"));
    hide EqIgnoreCase, Spelt, Ascii;
  }

  /** An id is safe exactly when it has one to sixty-four characters, each a letter, a digit, `-` or `_`. */
  lemma SafeIdMeans(id: Bytes)
    ensures IsSafeId(id) <==>
      && 1 <= |id| <= 64
      && forall i :: 0 <= i < |id| ==>
           || 'A' as int <= id[i] <= 'Z' as int || 'a' as int <= id[i] <= 'z' as int
           || '0' as int <= id[i] <= '9' as int || id[i] == '-' as int || id[i] == '_' as int
  {
  }

  function EntryFault(e: RefreshEntry): Option<RegistryError> {
    if !IsSafeId(e.customer) || exists i :: 0 <= i < |e.venues| && !IsSafeId(e.venues[i]) then Some(UnsafeId)
    else if GrantsReservedVenue(e.customer, e.venues) then Some(ReservedVenue)
    else if e.mode.Some? && ParseMode(e.mode.value).None? then Some(BadMode)
    else None
  }

  /** The fault of the first faulty entry. */
  function EntriesFault(entries: seq<RefreshEntry>): (f: Option<RegistryError>)
    ensures f.None? <==> forall i :: 0 <= i < |entries| ==> EntryFault(entries[i]).None?
  {
    if |entries| == 0 then None
    else if EntryFault(entries[0]).Some? then EntryFault(entries[0])
    else EntriesFault(entries[1..])
  }

  function ToResident(lib: Library, e: RefreshEntry): TenantEntry {
    var mode := if e.mode.Some? then ParseMode(e.mode.value) else None;
    TenantEntry(lib.tokenHmac(e.token), e.customer, e.venues, if mode.Some? then mode.value else Active)
  }

  // ---------------------------------------------------------------- the checks of a refresh

  /** What the control plane signs: nonce, version as eight little-endian bytes, content hash. */
  function SignedMessage(nonce: Bytes, version: nat, contentHash: Bytes): Bytes {
    nonce + LittleEndian(version, 8) + contentHash
  }

  function PeekCheck(lib: Library, pending: Option<Bytes>, req: Request): Result<Bytes, RegistryError> {
    if lib.key.Some? then Err(lib.key.value)
    else
      var nonce := lib.unhex(req.nonceHex);
      if nonce.None? || |nonce.value| != 32 then Err(BadNonceHex)
      else if pending.None? then Err(NoPendingNonce)
      else if pending.value != nonce.value then Err(NonceMismatch)
      else Ok(nonce.value)
  }

  function VerifyCheck(lib: Library, nonce: Bytes, req: Request): Result<seq<RefreshEntry>, RegistryError> {
    var sig := lib.unhex(req.signatureHex);
    if sig.None? || |sig.value| != 64 then Err(BadSignature)
    else if !lib.verifies(SignedMessage(nonce, req.version, lib.hash(req.entriesJson)), sig.value) then
      Err(SignatureInvalid)
    else
      var entries := lib.parse(req.entriesJson);
      if entries.None? then Err(MalformedEntries)
      else if |entries.value| == 0 then Err(Empty)
      else if EntriesFault(entries.value).Some? then Err(EntriesFault(entries.value).value)
      else Ok(entries.value)
  }

  function Build(lib: Library, entries: seq<RefreshEntry>, version: nat): (r: Resident)
    ensures r.version == version
  {
    Resident(seq(|entries|, i requires 0 <= i < |entries| => ToResident(lib, entries[i])), version)
  }

  // ---------------------------------------------------------------- the state machine

  /** The nonce slot, with the serial number of the challenge that filled it. */
  datatype Pending = Pending(nonce: Bytes, serial: nat)

  /** A refresh under way: its request, the nonce it peeked, whose challenge and when. */
  datatype Task =
    | Peeked(req: Request, nonce: Bytes, serial: nat, peekedAt: nat)
    | Verified(req: Request, nonce: Bytes, serial: nat, peekedAt: nat, entries: seq<RefreshEntry>)
    | Installed(req: Request, nonce: Bytes, serial: nat, peekedAt: nat)

  /** History of a successful refresh; clearedAt is set when it releases the lock. */
  datatype Install = Install(req: Request, nonce: Bytes, serial: nat, peekedAt: nat, clearedAt: Option<nat>)

  datatype World = World(
    registry: Resident,
    pending: Option<Pending>,
    tasks: map<int, Task>,
    writer: Option<int>,
    serial: nat,
    clock: nat,
    installs: seq<Install>)

  const BOOT := World(Resident([], 0), None, map[], None, 0, 0, [])

  datatype Step =
    | Challenge(nonce: Bytes)
    | Peek(id: int, req: Request)
    | Verify(id: int)
    | Swap(id: int)
    | Clear(id: int)

  function NonceOf(pending: Option<Pending>): Option<Bytes> {
    if pending.Some? then Some(pending.value.nonce) else None
  }

  function ApplyPeek(lib: Library, w: World, id: int, req: Request): World {
    var peek := PeekCheck(lib, NonceOf(w.pending), req);
    if id in w.tasks || peek.Err? then w
    else w.(tasks := w.tasks[id := Peeked(req, peek.value, w.pending.value.serial, w.clock)])
  }

  function ApplyVerify(lib: Library, w: World, id: int): World {
    if id in w.tasks && w.tasks[id].Peeked? then
      var t := w.tasks[id];
      var entries := VerifyCheck(lib, t.nonce, t.req);
      if entries.Err? then w.(tasks := w.tasks - {id})
      else w.(tasks := w.tasks[id := Verified(t.req, t.nonce, t.serial, t.peekedAt, entries.value)])
    else w
  }

  /** Take the write lock, check the version, install. */
  function ApplySwap(lib: Library, w: World, id: int): World {
    if id in w.tasks && w.tasks[id].Verified? && w.writer.None? then
      var t := w.tasks[id];
      if t.req.version <= w.registry.version then w.(tasks := w.tasks - {id})
      else
        w.(registry := Build(lib, t.entries, t.req.version),
           tasks := w.tasks[id := Installed(t.req, t.nonce, t.serial, t.peekedAt)],
           writer := Some(id),
           installs := w.installs + [Install(t.req, t.nonce, t.serial, t.peekedAt, None)])
    else w
  }

  /** Compare-and-clear the nonce, then release the lock. */
  function ApplyClear(w: World, id: int): World {
    if w.writer == Some(id) && id in w.tasks && |w.installs| > 0 then
      var t := w.tasks[id];
      var last := |w.installs| - 1;
      w.(pending := if NonceOf(w.pending) == Some(t.nonce) then None else w.pending,
         tasks := w.tasks - {id},
         writer := None,
         installs := w.installs[last := w.installs[last].(clearedAt := Some(w.clock))])
    else w
  }

  /** A step that is not enabled changes nothing but the clock. */
  function Apply(lib: Library, w: World, step: Step): World {
    var next := match step
      case Challenge(nonce) => w.(pending := Some(Pending(nonce, w.serial)), serial := w.serial + 1)
      case Peek(id, req) => ApplyPeek(lib, w, id, req)
      case Verify(id) => ApplyVerify(lib, w, id)
      case Swap(id) => ApplySwap(lib, w, id)
      case Clear(id) => ApplyClear(w, id);
    next.(clock := w.clock + 1)
  }

  function Run(lib: Library, steps: seq<Step>): World {
    if |steps| == 0 then BOOT else Apply(lib, Run(lib, steps[..|steps| - 1]), steps[|steps| - 1])
  }

  // ---------------------------------------------------------------- what every reachable state satisfies

  /** Ids are safe, and a reserved venue is held only by its owner. */
  predicate SafeEntry(e: TenantEntry) {
    && IsSafeId(e.customer)
    && forall i :: 0 <= i < |e.venues| ==>
         IsSafeId(e.venues[i]) && MayHold(e.customer, e.venues[i])
  }

  /** The bytes a signature was verified over are exactly the bytes installed. */
  predicate Authentic(lib: Library, req: Request, nonce: Bytes) {
    && var sig := lib.unhex(req.signatureHex);
    && sig.Some?
    && lib.verifies(SignedMessage(nonce, req.version, lib.hash(req.entriesJson)), sig.value)
    && lib.unhex(req.nonceHex) == Some(nonce) && |nonce| == 32
  }

  predicate TaskOk(lib: Library, w: World, t: Task) {
    && t.serial < w.serial && t.peekedAt < w.clock
    && lib.unhex(t.req.nonceHex) == Some(t.nonce) && |t.nonce| == 32
    && (w.pending.Some? && w.pending.value.serial == t.serial ==> w.pending.value.nonce == t.nonce)
    && (t.Verified? ==> VerifyCheck(lib, t.nonce, t.req) == Ok(t.entries))
  }

  predicate InstallOk(lib: Library, w: World, r: Install) {
    Authentic(lib, r.req, r.nonce) && r.peekedAt < w.clock && r.serial < w.serial
  }

  /** Once a refresh has cleared, its challenge is no longer pending and no one who peeked later carries it. */
  predicate Spent(w: World, r: Install) {
    r.clearedAt.Some? ==>
      && (w.pending.Some? ==> w.pending.value.serial != r.serial)
      && (forall id :: id in w.tasks && w.tasks[id].serial == r.serial ==> w.tasks[id].peekedAt < r.clearedAt.value)
  }

  /** The resident registry is the content of the last install. */
  predicate RegistryIsLastInstall(lib: Library, registry: Resident, installs: seq<Install>) {
    if |installs| == 0 then registry == BOOT.registry
    else
      var r := installs[|installs| - 1];
      && lib.parse(r.req.entriesJson).Some?
      && EntriesFault(lib.parse(r.req.entriesJson).value).None?
      && registry == Build(lib, lib.parse(r.req.entriesJson).value, r.req.version)
  }

  predicate LockHeld(w: World) {
    && (w.writer.Some? ==>
          && w.writer.value in w.tasks && w.tasks[w.writer.value].Installed?
          && |w.installs| > 0
          && var t, r := w.tasks[w.writer.value], w.installs[|w.installs| - 1];
          && r.clearedAt.None? && r.serial == t.serial && r.nonce == t.nonce)
    && (forall i :: 0 <= i < |w.installs| && w.installs[i].clearedAt.None? ==> i == |w.installs| - 1 && w.writer.Some?)
  }

  predicate VersionsIncrease(installs: seq<Install>) {
    forall i, j :: 0 <= i < j < |installs| ==> installs[i].req.version < installs[j].req.version
  }

  /** Two installs of one challenge overlapped: the later one had peeked before the earlier one cleared. */
  predicate SharersOverlap(installs: seq<Install>) {
    forall i, j :: 0 <= i < j < |installs| && installs[i].serial == installs[j].serial ==>
      installs[i].clearedAt.Some? && installs[j].peekedAt < installs[i].clearedAt.value
  }

  predicate SafeRegistry(r: Resident) {
    forall i :: 0 <= i < |r.entries| ==> SafeEntry(r.entries[i])
  }

  predicate TasksOk(lib: Library, w: World) {
    && (w.pending.Some? ==> w.pending.value.serial < w.serial)
    && (forall id :: id in w.tasks ==> TaskOk(lib, w, w.tasks[id]))
  }

  predicate InstallsOk(lib: Library, w: World) {
    forall i :: 0 <= i < |w.installs| ==> InstallOk(lib, w, w.installs[i]) && Spent(w, w.installs[i])
  }

  predicate Inv(lib: Library, w: World) {
    && SafeRegistry(w.registry)
    && RegistryIsLastInstall(lib, w.registry, w.installs)
    && TasksOk(lib, w)
    && InstallsOk(lib, w)
    && LockHeld(w)
    && VersionsIncrease(w.installs)
    && SharersOverlap(w.installs)
  }

  // ---------------------------------------------------------------- every step keeps the invariant

  lemma BootInv(lib: Library)
    ensures Inv(lib, BOOT)
  {
  }

  lemma ChallengeInv(lib: Library, w: World, nonce: Bytes)
    requires Inv(lib, w)
    ensures Inv(lib, Apply(lib, w, Challenge(nonce)))
  {
    hide Authentic, VerifyCheck, SafeRegistry, RegistryIsLastInstall, VersionsIncrease, SharersOverlap;
  }

  lemma PeekInv(lib: Library, w: World, id: int, req: Request)
    requires Inv(lib, w)
    ensures Inv(lib, Apply(lib, w, Peek(id, req)))
  {
    hide Authentic, VerifyCheck, SafeRegistry, RegistryIsLastInstall, VersionsIncrease, SharersOverlap;
  }

  lemma VerifyTasks(lib: Library, w: World, id: int)
    requires TasksOk(lib, w)
    ensures TasksOk(lib, Apply(lib, w, Verify(id)))
  {
    hide VerifyCheck;
  }

  lemma VerifyInstalls(lib: Library, w: World, id: int)
    requires InstallsOk(lib, w)
    ensures InstallsOk(lib, Apply(lib, w, Verify(id)))
  {
    hide Authentic, VerifyCheck;
  }

  lemma VerifyLock(lib: Library, w: World, id: int)
    requires LockHeld(w)
    ensures LockHeld(Apply(lib, w, Verify(id)))
  {
    hide VerifyCheck;
  }

  lemma VerifyLeaves(lib: Library, w: World, id: int)
    ensures var u := Apply(lib, w, Verify(id)); u.registry == w.registry && u.installs == w.installs
  {
    hide VerifyCheck;
  }

  lemma VerifyInv(lib: Library, w: World, id: int)
    requires Inv(lib, w)
    ensures Inv(lib, Apply(lib, w, Verify(id)))
  {
    VerifyTasks(lib, w, id);
    VerifyInstalls(lib, w, id);
    VerifyLock(lib, w, id);
    VerifyLeaves(lib, w, id);
    hide Apply, SafeRegistry, RegistryIsLastInstall, VersionsIncrease, SharersOverlap, TasksOk, InstallsOk, LockHeld;
  }

  lemma EntryIsSafe(lib: Library, e: RefreshEntry)
    requires EntryFault(e).None?
    ensures SafeEntry(ToResident(lib, e))
  {
    hide IsSafeId, ReservedVenueOwner, ParseMode, MayHold;
    forall i | 0 <= i < |e.venues| ensures MayHold(e.customer, e.venues[i]) {
      ReservedMeansOwned(e.customer, e.venues[i]);
    }
  }

  /** What passed the checks is authentic, and safe once resident. */
  lemma VerifiedIsSafe(lib: Library, nonce: Bytes, req: Request)
    requires VerifyCheck(lib, nonce, req).Ok? && lib.unhex(req.nonceHex) == Some(nonce) && |nonce| == 32
    ensures Authentic(lib, req, nonce)
    ensures lib.parse(req.entriesJson) == Some(VerifyCheck(lib, nonce, req).value)
    ensures EntriesFault(VerifyCheck(lib, nonce, req).value).None?
    ensures SafeRegistry(Build(lib, VerifyCheck(lib, nonce, req).value, req.version))
  {
    hide IsSafeId, ReservedVenueOwner, ParseMode, SignedMessage, MayHold;
    var entries := VerifyCheck(lib, nonce, req).value;
    forall i | 0 <= i < |entries| ensures SafeEntry(ToResident(lib, entries[i])) {
      assert EntryFault(entries[i]).None?;
      EntryIsSafe(lib, entries[i]);
    }
  }

  /** The history grows by one install, with a larger version. */
  lemma SwapHistory(lib: Library, w: World, id: int)
    requires Inv(lib, w) && id in w.tasks && w.tasks[id].Verified? && w.writer.None?
    requires w.tasks[id].req.version > w.registry.version
    ensures var t := w.tasks[id];
      var installs := w.installs + [Install(t.req, t.nonce, t.serial, t.peekedAt, None)];
      VersionsIncrease(installs) && SharersOverlap(installs)
  {
    hide Authentic, SafeEntry, VerifyCheck, Build, InstallOk, TaskOk;
  }

  lemma SwapTasks(lib: Library, w: World, id: int)
    requires Inv(lib, w)
    ensures TasksOk(lib, Apply(lib, w, Swap(id)))
  {
    hide VerifyCheck, Build, InstallsOk, LockHeld, RegistryIsLastInstall;
    hide SafeRegistry, VersionsIncrease, SharersOverlap;
  }

  lemma SwapSpent(lib: Library, w: World, id: int, r: Install)
    requires Spent(w, r)
    ensures Spent(Apply(lib, w, Swap(id)), r)
  {
    hide Build;
  }

  lemma SwapAuthentic(lib: Library, w: World, id: int)
    requires TasksOk(lib, w) && InstallsOk(lib, w)
    ensures var u := Apply(lib, w, Swap(id));
      forall i :: 0 <= i < |u.installs| ==> InstallOk(lib, u, u.installs[i])
  {
    if id in w.tasks && w.tasks[id].Verified? {
      VerifiedIsSafe(lib, w.tasks[id].nonce, w.tasks[id].req);
    }
    hide Spent, Authentic, VerifyCheck, Build;
  }

  lemma SwapInstalls(lib: Library, w: World, id: int)
    requires TasksOk(lib, w) && InstallsOk(lib, w)
    ensures InstallsOk(lib, Apply(lib, w, Swap(id)))
  {
    SwapAuthentic(lib, w, id);
    var u := Apply(lib, w, Swap(id));
    hide Spent, InstallOk, Build, VerifyCheck, TasksOk;
    forall i | 0 <= i < |w.installs| ensures Spent(u, w.installs[i]) {
      SwapSpent(lib, w, id, w.installs[i]);
    }
    if |u.installs| > |w.installs| {
      NewIsUnspent(u, u.installs[|w.installs|]);
    }
  }

  lemma NewIsUnspent(w: World, r: Install)
    requires r.clearedAt.None?
    ensures Spent(w, r)
  {
  }

  lemma SwapLock(lib: Library, w: World, id: int)
    requires Inv(lib, w)
    ensures LockHeld(Apply(lib, w, Swap(id)))
  {
    hide Build, InstallsOk, TasksOk, RegistryIsLastInstall, SafeRegistry, VersionsIncrease, SharersOverlap;
  }

  lemma SwapInv(lib: Library, w: World, id: int)
    requires Inv(lib, w)
    ensures Inv(lib, Apply(lib, w, Swap(id)))
  {
    SwapTasks(lib, w, id);
    SwapInstalls(lib, w, id);
    SwapLock(lib, w, id);
    if id in w.tasks && w.tasks[id].Verified? && w.writer.None? {
      var t := w.tasks[id];
      VerifiedIsSafe(lib, t.nonce, t.req);
      if t.req.version > w.registry.version {
        SwapHistory(lib, w, id);
      }
    }
    hide Authentic, VerifyCheck, Build, SafeRegistry, VersionsIncrease, SharersOverlap, InstallsOk, LockHeld;
  }

  lemma ClearTasks(lib: Library, w: World, id: int)
    requires TasksOk(lib, w)
    ensures TasksOk(lib, Apply(lib, w, Clear(id)))
  {
    hide VerifyCheck;
  }

  lemma ClearInstalls(lib: Library, w: World, id: int)
    requires Inv(lib, w)
    ensures InstallsOk(lib, Apply(lib, w, Clear(id)))
  {
    hide Authentic, VerifyCheck, SafeRegistry, RegistryIsLastInstall, VersionsIncrease, SharersOverlap;
  }

  lemma ClearLock(lib: Library, w: World, id: int)
    requires LockHeld(w)
    ensures LockHeld(Apply(lib, w, Clear(id)))
  {
  }

  lemma ClearHistory(lib: Library, w: World, id: int)
    requires VersionsIncrease(w.installs) && SharersOverlap(w.installs) && LockHeld(w)
    requires RegistryIsLastInstall(lib, w.registry, w.installs)
    ensures var u := Apply(lib, w, Clear(id));
      VersionsIncrease(u.installs) && SharersOverlap(u.installs) && RegistryIsLastInstall(lib, u.registry, u.installs)
  {
    hide Build;
  }

  lemma ClearInv(lib: Library, w: World, id: int)
    requires Inv(lib, w)
    ensures Inv(lib, Apply(lib, w, Clear(id)))
  {
    ClearTasks(lib, w, id);
    ClearInstalls(lib, w, id);
    ClearLock(lib, w, id);
    ClearHistory(lib, w, id);
    assert Apply(lib, w, Clear(id)).registry == w.registry;
    hide Apply, SafeRegistry, RegistryIsLastInstall, VersionsIncrease, SharersOverlap, TasksOk, InstallsOk, LockHeld;
  }

  lemma ApplyInv(lib: Library, w: World, step: Step)
    requires Inv(lib, w)
    ensures Inv(lib, Apply(lib, w, step))
  {
    hide Inv, Apply;
    match step
    case Challenge(nonce) => ChallengeInv(lib, w, nonce);
    case Peek(id, req) => PeekInv(lib, w, id, req);
    case Verify(id) => VerifyInv(lib, w, id);
    case Swap(id) => SwapInv(lib, w, id);
    case Clear(id) => ClearInv(lib, w, id);
  }

  lemma {:induction false} RunInv(lib: Library, steps: seq<Step>)
    ensures Inv(lib, Run(lib, steps))
    decreases |steps|
  {
    hide Inv, Apply;
    if |steps| == 0 {
      BootInv(lib);
    } else {
      RunInv(lib, steps[..|steps| - 1]);
      ApplyInv(lib, Run(lib, steps[..|steps| - 1]), steps[|steps| - 1]);
    }
  }

  // ---------------------------------------------------------------- the promises

  /**
   Over every interleaving: installed versions strictly increase, every install carries a signature verified over
   exactly the installed bytes, the resident registry is the last install's content, ids are safe and reserved venues
   are with their owners.
   */
  lemma RefreshSafety(lib: Library, steps: seq<Step>)
    ensures var w := Run(lib, steps);
      && VersionsIncrease(w.installs)
      && (forall i :: 0 <= i < |w.installs| ==> Authentic(lib, w.installs[i].req, w.installs[i].nonce))
      && RegistryIsLastInstall(lib, w.registry, w.installs)
      && SafeRegistry(w.registry)
  {
    RunInv(lib, steps);
    hide Run, Authentic, RegistryIsLastInstall, SafeRegistry, VersionsIncrease, SharersOverlap;
  }

  /** Of two equal signed messages with equally long nonces, the versions are equal. */
  lemma SignedMessageFixesVersion(n1: Bytes, v1: u64, h1: Bytes, n2: Bytes, v2: u64, h2: Bytes)
    requires |n1| == 32 && |n2| == 32 && SignedMessage(n1, v1, h1) == SignedMessage(n2, v2, h2)
    ensures n1 == n2 && v1 == v2 && h1 == h2
  {
    var m, m' := SignedMessage(n1, v1, h1), SignedMessage(n2, v2, h2);
    assert m[..32] == n1 && m'[..32] == n2;
    assert m[32..40] == LittleEndian(v1, 8) && m'[32..40] == LittleEndian(v2, 8);
    assert m[40..] == h1 && m'[40..] == h2;
    U64Fits(v1);
    U64Fits(v2);
    LittleEndianInjective(v1, v2, 8);
  }

  /** The layout of what is signed: 32 bytes of nonce, the version in eight bytes least significant first, the hash. */
  lemma SignedMessageLayout(nonce: Bytes, version: u64, hash: Bytes)
    requires |nonce| == 32 && |hash| == 32
    ensures var m := SignedMessage(nonce, version, hash);
      |m| == 72 && m[..32] == nonce && Value(256, m[32..40]) == version && m[40..] == hash
  {
    var m := SignedMessage(nonce, version, hash);
    assert m[32..40] == LittleEndian(version, 8);
    U64Fits(version);
    LittleEndianValue(version, 8);
  }

  function MessageOf(lib: Library, r: Install): Bytes {
    SignedMessage(r.nonce, r.req.version, lib.hash(r.req.entriesJson))
  }

  /** No signed message is ever installed twice: a replayed refresh cannot take effect again. */
  lemma NoMessageInstalledTwice(lib: Library, steps: seq<Step>, i: nat, j: nat)
    requires i < j < |Run(lib, steps).installs|
    ensures MessageOf(lib, Run(lib, steps).installs[i]) != MessageOf(lib, Run(lib, steps).installs[j])
  {
    RefreshSafety(lib, steps);
    hide Run, SignedMessage, RegistryIsLastInstall, SafeRegistry;
    var a, b := Run(lib, steps).installs[i], Run(lib, steps).installs[j];
    if MessageOf(lib, a) == MessageOf(lib, b) {
      SignedMessageFixesVersion(
        a.nonce, a.req.version, lib.hash(a.req.entriesJson), b.nonce, b.req.version, lib.hash(b.req.entriesJson));
    }
  }

  /** An issued nonce leaves the slot only by a later challenge, or by a successful refresh carrying that same nonce. */
  lemma PendingLeavesOnlyBy(lib: Library, w: World, step: Step)
    requires Inv(lib, w) && w.pending.Some?
    ensures Apply(lib, w, step).pending != w.pending ==>
      || step.Challenge?
      || (step.Clear? && |w.installs| > 0 && w.installs[|w.installs| - 1].nonce == w.pending.value.nonce
          && w.registry.version == w.installs[|w.installs| - 1].req.version)
  {
    hide VerifyCheck, PeekCheck, Build, TaskOk, InstallsOk, SafeRegistry, VersionsIncrease, SharersOverlap;
  }

  // ---------------------------------------------------------------- resolving a token

  datatype Identity = Identity(customer: Bytes, venues: seq<Bytes>, mode: TenantMode)

  /** Entry i is the last one with the token's hash. */
  predicate ResolvesTo(lib: Library, r: Resident, token: Bytes, i: nat) {
    && i < |r.entries|
    && r.entries[i].tokenHmac == lib.tokenHmac(token)
    && forall j :: i < j < |r.entries| ==> r.entries[j].tokenHmac != lib.tokenHmac(token)
  }

  /** The identity of the last entry with the token's hash; none exactly when no entry has it. */
  method Resolve(lib: Library, r: Resident, token: Bytes) returns (id: Option<Identity>)
    requires |r.entries| < TokenTable.Ones(TokenTable.WORD)
    ensures id.None? <==> forall i :: 0 <= i < |r.entries| ==> r.entries[i].tokenHmac != lib.tokenHmac(token)
    ensures id.Some? ==> exists i: nat ::
      && ResolvesTo(lib, r, token, i)
      && id.value == Identity(r.entries[i].customer, r.entries[i].venues, r.entries[i].mode)
  {
    hide TokenTable.Ones;
    var hashes := seq(|r.entries|, i requires 0 <= i < |r.entries| => r.entries[i].tokenHmac);
    var matched := TokenTable.Scan(hashes, lib.tokenHmac(token));
    if matched.None? {
      forall i | 0 <= i < |r.entries| ensures r.entries[i].tokenHmac != lib.tokenHmac(token) {
        assert hashes[i] in hashes;
      }
      return None;
    }
    var m := matched.value;
    forall j | m < j < |r.entries| ensures r.entries[j].tokenHmac != lib.tokenHmac(token) {
      assert hashes[m + 1..][j - m - 1] == hashes[j];
    }
    assert ResolvesTo(lib, r, token, m);
    id := Some(Identity(r.entries[m].customer, r.entries[m].venues, r.entries[m].mode));
  }

  /**
   After any interleaving, a token resolves only to an entry of the last installed payload whose own token hashes
   alike, in the mode that entry asks for, with safe ids and no reserved venue but its own.
   */
  lemma ResolvedWasSigned(lib: Library, steps: seq<Step>, token: Bytes, i: nat)
    requires ResolvesTo(lib, Run(lib, steps).registry, token, i)
    ensures var w := Run(lib, steps);
      && |w.installs| > 0
      && var last := w.installs[|w.installs| - 1];
      && Authentic(lib, last.req, last.nonce)
      && lib.parse(last.req.entriesJson).Some?
      && var signed := lib.parse(last.req.entriesJson).value;
      && i < |signed|
      && lib.tokenHmac(signed[i].token) == lib.tokenHmac(token)
      && w.registry.entries[i].customer == signed[i].customer
      && w.registry.entries[i].venues == signed[i].venues
      && Asks(signed[i].mode, w.registry.entries[i].mode)
      && SafeEntry(w.registry.entries[i])
  {
    RefreshSafety(lib, steps);
    hide Run, Authentic, SafeEntry, VersionsIncrease, ParseMode, Asks, EntryFault;
    var w := Run(lib, steps);
    assert |w.installs| > 0;
    var signed := lib.parse(w.installs[|w.installs| - 1].req.entriesJson).value;
    assert i < |signed| && w.registry.entries[i] == ToResident(lib, signed[i]);
    ModeIsAsked(lib, signed[i]);
  }

  // ---------------------------------------------------------------- the nonce at the peek

  /** Step p of the run was this peek, and the nonce was pending then. */
  ghost predicate PeekedAt(lib: Library, steps: seq<Step>, p: nat, req: Request, nonce: Bytes) {
    && p < |steps|
    && steps[p].Peek? && steps[p].req == req
    && NonceOf(Run(lib, steps[..p]).pending) == Some(nonce)
  }

  lemma {:induction false} ClockCountsSteps(lib: Library, steps: seq<Step>)
    ensures Run(lib, steps).clock == |steps|
    decreases |steps|
  {
    hide Apply;
    if |steps| > 0 {
      ClockCountsSteps(lib, steps[..|steps| - 1]);
      ApplyTicks(lib, Run(lib, steps[..|steps| - 1]), steps[|steps| - 1]);
    }
  }

  lemma ApplyTicks(lib: Library, w: World, step: Step)
    ensures Apply(lib, w, step).clock == w.clock + 1
  {
  }

  lemma PeekedAtExtends(lib: Library, steps: seq<Step>, p: nat, req: Request, nonce: Bytes)
    requires |steps| > 0 && PeekedAt(lib, steps[..|steps| - 1], p, req, nonce)
    ensures PeekedAt(lib, steps, p, req, nonce)
  {
    hide Run;
    assert steps[..|steps| - 1][..p] == steps[..p];
  }

  /** Where the peek of a task comes from: it is this step's, or the task was there before. */
  lemma TaskOrigin(lib: Library, w: World, step: Step, id: int)
    requires id in Apply(lib, w, step).tasks
    ensures var t := Apply(lib, w, step).tasks[id];
      || (id in w.tasks && SameTaskPeek(w.tasks[id], t))
      || (step.Peek? && step.req == t.req && NonceOf(w.pending) == Some(t.nonce) && t.peekedAt == w.clock)
  {
    hide VerifyCheck, Build;
  }

  predicate SameTaskPeek(q: Task, t: Task) {
    q.req == t.req && q.nonce == t.nonce && q.peekedAt == t.peekedAt
  }

  predicate SamePeek(q: Install, r: Install) {
    q.req == r.req && q.nonce == r.nonce && q.peekedAt == r.peekedAt
  }

  predicate PeekOf(t: Task, r: Install) {
    t.req == r.req && t.nonce == r.nonce && t.peekedAt == r.peekedAt
  }

  /** An install comes from a task that was there before, or was already in the history. */
  lemma InstallOrigin(lib: Library, w: World, step: Step, i: nat)
    requires i < |Apply(lib, w, step).installs|
    ensures var r := Apply(lib, w, step).installs[i];
      || (i < |w.installs| && SamePeek(w.installs[i], r))
      || (exists id :: id in w.tasks && PeekOf(w.tasks[id], r))
  {
    hide VerifyCheck, Build, PeekCheck;
  }

  lemma {:induction false} TasksPeeked(lib: Library, steps: seq<Step>, id: int)
    requires id in Run(lib, steps).tasks
    ensures var t := Run(lib, steps).tasks[id]; PeekedAt(lib, steps, t.peekedAt, t.req, t.nonce)
    decreases |steps|
  {
    hide Apply, PeekedAt;
    if |steps| > 0 {
      var before, step := steps[..|steps| - 1], steps[|steps| - 1];
      var w, t := Run(lib, before), Run(lib, steps).tasks[id];
      TaskOrigin(lib, w, step, id);
      ClockCountsSteps(lib, before);
      if id in w.tasks && SameTaskPeek(w.tasks[id], t) {
        TasksPeeked(lib, before, id);
        PeekedAtExtends(lib, steps, t.peekedAt, t.req, t.nonce);
      } else {
        JustPeeked(lib, steps, t.req, t.nonce);
      }
    }
  }

  lemma JustPeeked(lib: Library, steps: seq<Step>, req: Request, nonce: Bytes)
    requires |steps| > 0
    requires var step := steps[|steps| - 1]; step.Peek? && step.req == req
    requires NonceOf(Run(lib, steps[..|steps| - 1]).pending) == Some(nonce)
    ensures PeekedAt(lib, steps, |steps| - 1, req, nonce)
  {
    hide Run;
  }

  /** Every install's nonce was pending when that very refresh peeked. */
  lemma {:induction false} InstallsPeeked(lib: Library, steps: seq<Step>, i: nat)
    requires i < |Run(lib, steps).installs|
    ensures var r := Run(lib, steps).installs[i]; PeekedAt(lib, steps, r.peekedAt, r.req, r.nonce)
    decreases |steps|
  {
    hide Apply, PeekedAt;
    if |steps| > 0 {
      var before, step := steps[..|steps| - 1], steps[|steps| - 1];
      var w, r := Run(lib, before), Run(lib, steps).installs[i];
      InstallOrigin(lib, w, step, i);
      if i < |w.installs| && SamePeek(w.installs[i], r) {
        InstallsPeeked(lib, before, i);
      } else {
        var id :| id in w.tasks && PeekOf(w.tasks[id], r);
        TasksPeeked(lib, before, id);
      }
      PeekedAtExtends(lib, steps, r.peekedAt, r.req, r.nonce);
    }
  }

  // ---------------------------------------------------------------- is a challenge one-shot?

  /** Refreshes that answer the same challenge and both take effect ran at the same time. */
  lemma SharedChallengeOverlaps(lib: Library, steps: seq<Step>)
    ensures SharersOverlap(Run(lib, steps).installs)
  {
    RunInv(lib, steps);
    hide Run, SharersOverlap;
  }

  /** Two refreshes that have peeked at one challenge and passed their checks, with the write lock free. */
  predicate TwoReady(w: World, i: int, j: int) {
    && i != j && i in w.tasks && j in w.tasks && w.writer.None?
    && w.tasks[i].Verified? && w.tasks[j].Verified?
    && w.tasks[i].serial == w.tasks[j].serial
  }

  /** One after the other takes the lock. */
  function BothSwap(lib: Library, w: World, i: int, j: int): World {
    Apply(lib, Apply(lib, Apply(lib, w, Swap(i)), Clear(i)), Swap(j))
  }

  /** The history grew by installs of these two requests, both answering this challenge. */
  predicate UsedTwice(w: World, u: World, a: Request, b: Request, serial: nat) {
    && |u.installs| == |w.installs| + 2
    && var first, second := u.installs[|w.installs|], u.installs[|w.installs| + 1];
    && first.req == a && second.req == b && first.serial == serial && second.serial == serial
  }

  /** Where the first of two ready refreshes leaves the second. */
  lemma AfterFirst(lib: Library, w: World, i: int, j: int)
    requires TwoReady(w, i, j)
    ensures var u := Apply(lib, Apply(lib, w, Swap(i)), Clear(i));
      var t := w.tasks[i];
      && u.writer.None? && j in u.tasks && u.tasks[j] == w.tasks[j]
      && (if t.req.version > w.registry.version then
            && u.registry.version == t.req.version && |u.installs| == |w.installs| + 1
            && u.installs[|w.installs|].req == t.req && u.installs[|w.installs|].serial == t.serial
          else u.registry == w.registry && u.installs == w.installs)
  {
    hide Build;
  }

  lemma SecondSwap(lib: Library, w: World, j: int)
    requires j in w.tasks && w.tasks[j].Verified? && w.writer.None?
    ensures var u := Apply(lib, w, Swap(j));
      var t := w.tasks[j];
      if t.req.version > w.registry.version then
        && |u.installs| == |w.installs| + 1 && u.installs[..|w.installs|] == w.installs
        && u.installs[|w.installs|].req == t.req && u.installs[|w.installs|].serial == t.serial
      else u.installs == w.installs
  {
    hide Build;
  }

  /** From any state, two ready refreshes of one challenge both take effect exactly when their versions increase. */
  lemma BothTakeEffect(lib: Library, w: World, i: int, j: int)
    requires TwoReady(w, i, j)
    ensures var u := BothSwap(lib, w, i, j);
      var a, b := w.tasks[i].req, w.tasks[j].req;
      && (|u.installs| == |w.installs| + 2 <==> w.registry.version < a.version < b.version)
      && (|u.installs| == |w.installs| + 2 ==> UsedTwice(w, u, a, b, w.tasks[i].serial))
  {
    AfterFirst(lib, w, i, j);
    hide Apply;
    var v := Apply(lib, Apply(lib, w, Swap(i)), Clear(i));
    SecondSwap(lib, v, j);
    var u := BothSwap(lib, w, i, j);
    if |u.installs| == |w.installs| + 2 {
      assert u.installs[..|v.installs|][|w.installs|] == v.installs[|w.installs|];
    }
  }

  /** Challenge, two peeks, two verifications. */
  function BothPrepare(lib: Library, w: World, nonce: Bytes, i: int, a: Request, j: int, b: Request): World {
    var peeked := Apply(lib, Apply(lib, Apply(lib, w, Challenge(nonce)), Peek(i, a)), Peek(j, b));
    Apply(lib, Apply(lib, peeked, Verify(i)), Verify(j))
  }

  lemma BothGetReady(lib: Library, w: World, nonce: Bytes, i: int, a: Request, j: int, b: Request)
    requires i != j && i !in w.tasks && j !in w.tasks && w.writer.None?
    requires PeekCheck(lib, Some(nonce), a).Ok? && PeekCheck(lib, Some(nonce), b).Ok?
    requires VerifyCheck(lib, nonce, a).Ok? && VerifyCheck(lib, nonce, b).Ok?
    ensures var u := BothPrepare(lib, w, nonce, i, a, j, b);
      && TwoReady(u, i, j) && u.tasks[i].req == a && u.tasks[j].req == b && u.tasks[i].serial == w.serial
      && u.registry == w.registry && u.installs == w.installs
  {
    PeekReturnsNonce(lib, nonce, a);
    PeekReturnsNonce(lib, nonce, b);
    hide PeekCheck, VerifyCheck, Build;
  }

  /**
   The notes call a challenge one-shot. After any run that leaves the lock free, a new challenge can be answered by two
   refreshes that both take effect, exactly when their versions increase past the resident one.
   */
  lemma ChallengeUsedTwice(lib: Library, steps: seq<Step>, nonce: Bytes, i: int, a: Request, j: int, b: Request)
    requires var w := Run(lib, steps); i != j && i !in w.tasks && j !in w.tasks && w.writer.None?
    requires PeekCheck(lib, Some(nonce), a).Ok? && PeekCheck(lib, Some(nonce), b).Ok?
    requires VerifyCheck(lib, nonce, a).Ok? && VerifyCheck(lib, nonce, b).Ok?
    ensures var w := Run(lib, steps);
      var u := Run(lib, steps + TwiceSteps(nonce, i, a, j, b));
      UsedTwice(w, u, a, b, w.serial) <==> w.registry.version < a.version < b.version
  {
    hide Apply, PeekCheck, VerifyCheck, Run;
    var w := Run(lib, steps);
    BothGetReady(lib, w, nonce, i, a, j, b);
    BothTakeEffect(lib, BothPrepare(lib, w, nonce, i, a, j, b), i, j);
    TwiceRuns(lib, steps, nonce, i, a, j, b);
  }

  function TwiceSteps(nonce: Bytes, i: int, a: Request, j: int, b: Request): seq<Step> {
    [Challenge(nonce), Peek(i, a), Peek(j, b), Verify(i), Verify(j), Swap(i), Clear(i), Swap(j)]
  }

  lemma TwiceRuns(lib: Library, steps: seq<Step>, nonce: Bytes, i: int, a: Request, j: int, b: Request)
    ensures Run(lib, steps + TwiceSteps(nonce, i, a, j, b))
         == BothSwap(lib, BothPrepare(lib, Run(lib, steps), nonce, i, a, j, b), i, j)
  {
    hide Apply, Run;
    var more := TwiceSteps(nonce, i, a, j, b);
    assert steps + more[..0] == steps;
    RunOneMore(lib, steps, more, 0);
    RunOneMore(lib, steps, more, 1);
    RunOneMore(lib, steps, more, 2);
    RunOneMore(lib, steps, more, 3);
    RunOneMore(lib, steps, more, 4);
    RunOneMore(lib, steps, more, 5);
    RunOneMore(lib, steps, more, 6);
    RunOneMore(lib, steps, more, 7);
    assert more[..8] == more;
  }

  lemma RunOneMore(lib: Library, steps: seq<Step>, more: seq<Step>, n: nat)
    requires n < |more|
    ensures Run(lib, steps + more[..n + 1]) == Apply(lib, Run(lib, steps + more[..n]), more[n])
  {
    hide Apply, Run;
    RunAppend(lib, steps + more[..n], more[n]);
    assert steps + more[..n + 1] == steps + more[..n] + [more[n]];
  }

  lemma RunAppend(lib: Library, steps: seq<Step>, step: Step)
    ensures Run(lib, steps + [step]) == Apply(lib, Run(lib, steps), step)
  {
    hide Apply;
    assert (steps + [step])[..|steps|] == steps;
  }

  lemma PeekReturnsNonce(lib: Library, nonce: Bytes, req: Request)
    requires PeekCheck(lib, Some(nonce), req).Ok?
    ensures PeekCheck(lib, Some(nonce), req).value == nonce
  {
  }

  // ---------------------------------------------------------------- calls that do not overlap

  /** A refresh with nothing between its four steps. */
  function Alone(lib: Library, w: World, req: Request): World {
    Apply(lib, Apply(lib, Apply(lib, Apply(lib, w, Peek(0, req)), Verify(0)), Swap(0)), Clear(0))
  }

  lemma AloneInv(lib: Library, w: World, req: Request)
    requires Inv(lib, w)
    ensures Inv(lib, Alone(lib, w, req))
  {
    hide Inv, Apply;
    var w1 := Apply(lib, w, Peek(0, req));
    var w2 := Apply(lib, w1, Verify(0));
    var w3 := Apply(lib, w2, Swap(0));
    ApplyInv(lib, w, Peek(0, req));
    ApplyInv(lib, w1, Verify(0));
    ApplyInv(lib, w2, Swap(0));
    ApplyInv(lib, w3, Clear(0));
  }

  /** The first failing check decides the answer. */
  function Outcome(lib: Library, registry: Resident, pending: Option<Bytes>, req: Request): Result<nat, RegistryError> {
    var nonce :- PeekCheck(lib, pending, req);
    var entries :- VerifyCheck(lib, nonce, req);
    if req.version <= registry.version then Err(NonMonotonicVersion(req.version, registry.version)) else Ok(req.version)
  }

  /** An entry the registry may hold: safe ids, only its own reserved venues, and one of the three modes or none. */
  ghost predicate GoodEntry(e: RefreshEntry) {
    && IsSafeId(e.customer)
    && (forall i :: 0 <= i < |e.venues| ==> IsSafeId(e.venues[i]) && MayHold(e.customer, e.venues[i]))
    && exists m :: Asks(e.mode, m)
  }

  lemma GoodEntryExactly(e: RefreshEntry)
    ensures EntryFault(e).None? <==> GoodEntry(e)
  {
    GrantsExactly(e.customer, e.venues);
    ModeExactly(e.mode);
    hide IsSafeId, MayHold, GrantsReservedVenue, Asks, ParseMode;
  }

  lemma GrantsExactly(customer: Bytes, venues: seq<Bytes>)
    ensures GrantsReservedVenue(customer, venues) <==> exists i :: 0 <= i < |venues| && !MayHold(customer, venues[i])
  {
    hide ReservedVenueOwner, MayHold;
    forall i | 0 <= i < |venues|
      ensures MayHold(customer, venues[i])
        <==> (ReservedVenueOwner(venues[i]).Some? ==> ReservedVenueOwner(venues[i]).value == customer)
    {
      ReservedMeansOwned(customer, venues[i]);
    }
  }

  lemma ModeExactly(mode: Option<Bytes>)
    ensures (mode.None? || ParseMode(mode.value).Some?) <==> exists m :: Asks(mode, m)
  {
    hide Ascii;
    if mode.None? || mode == Some(Ascii("active")) {
      assert Asks(mode, Active);
    } else if mode == Some(Ascii("cancel_only")) {
      assert Asks(mode, CancelOnly);
    } else if mode == Some(Ascii("halted")) {
      assert Asks(mode, Halted);
    }
  }

  /**
   When a refresh is accepted: the control-plane key is there, the nonce is the pending one, the signature is over
   nonce, version and content hash, every entry may be held, and the version is new.
   */
  lemma AcceptedExactly(lib: Library, registry: Resident, pending: Option<Bytes>, req: Request)
    ensures Outcome(lib, registry, pending, req).Ok? <==>
      && lib.key.None?
      && pending.Some? && lib.unhex(req.nonceHex) == pending && |pending.value| == 32
      && var sig := lib.unhex(req.signatureHex);
      && sig.Some? && |sig.value| == 64
      && lib.verifies(pending.value + LittleEndian(req.version, 8) + lib.hash(req.entriesJson), sig.value)
      && var entries := lib.parse(req.entriesJson);
      && entries.Some? && |entries.value| > 0
      && (forall i :: 0 <= i < |entries.value| ==> GoodEntry(entries.value[i]))
      && registry.version < req.version
  {
    hide GoodEntry, EntryFault, LittleEndian;
    var entries := lib.parse(req.entriesJson);
    if entries.Some? {
      forall i | 0 <= i < |entries.value| ensures EntryFault(entries.value[i]).None? <==> GoodEntry(entries.value[i]) {
        GoodEntryExactly(entries.value[i]);
      }
    }
  }

  predicate Idle(w: World) {
    w.tasks == map[] && w.writer.None?
  }

  /** A refused refresh leaves the registry, the nonce and the history as they were. */
  lemma AloneRefused(lib: Library, w: World, req: Request)
    requires Idle(w) && Outcome(lib, w.registry, NonceOf(w.pending), req).Err?
    ensures var u := Alone(lib, w, req);
      Idle(u) && u.registry == w.registry && u.pending == w.pending && u.installs == w.installs
  {
    hide PeekCheck, VerifyCheck, Build;
  }

  /** An accepted one installs the signed entries and consumes the nonce. */
  lemma AloneAccepted(lib: Library, w: World, req: Request)
    requires Idle(w) && Outcome(lib, w.registry, NonceOf(w.pending), req).Ok?
    ensures lib.parse(req.entriesJson).Some?
    ensures var u := Alone(lib, w, req);
      && Idle(u) && u.pending.None?
      && u.registry == Build(lib, lib.parse(req.entriesJson).value, req.version)
      && |u.installs| == |w.installs| + 1 && u.installs[..|w.installs|] == w.installs
      && u.installs[|w.installs|].req == req
  {
    var nonce := NonceOf(w.pending).value;
    assert NonceOf(w.pending) == Some(nonce);
    PeekReturnsNonce(lib, nonce, req);
    assert lib.parse(req.entriesJson) == Some(VerifyCheck(lib, nonce, req).value);
    hide PeekCheck, VerifyCheck, Build;
  }

  /** The registry and the nonce slot, with the state of the machine they stand for. */
  class Holder {
    const lib: Library
    var registry: Resident
    var pending: Option<Bytes>
    ghost var world: World

    ghost predicate Valid()
      reads this
    {
      registry == world.registry && pending == NonceOf(world.pending) && Idle(world) && Inv(lib, world)
    }

    constructor (lib: Library)
      ensures Valid() && this.lib == lib && world == BOOT
    {
      this.lib := lib;
      registry, pending, world := BOOT.registry, None, BOOT;
      BootInv(lib);
    }

    method IssueChallenge(nonce: Bytes)
      requires Valid()
      modifies this
      ensures Valid() && world == Apply(lib, old(world), Challenge(nonce))
      ensures pending == Some(nonce) && registry == old(registry)
    {
      hide Inv;
      ApplyInv(lib, world, Challenge(nonce));
      world := Apply(lib, world, Challenge(nonce));
      pending := Some(nonce);
    }

    /** Installs and consumes the nonce exactly when every check passes, and otherwise changes nothing. */
    method Refresh(req: Request) returns (r: Result<nat, RegistryError>)
      requires Valid()
      modifies this
      ensures Valid() && world == Alone(lib, old(world), req)
      ensures r == Outcome(lib, old(registry), old(pending), req)
      ensures r.Err? ==> registry == old(registry) && pending == old(pending)
      ensures r.Ok? ==>
                && pending.None? && lib.parse(req.entriesJson).Some?
                && registry == Build(lib, lib.parse(req.entriesJson).value, req.version)
    {
      hide Inv, Alone, Build, SignedMessage;
      ghost var w := world;
      AloneInv(lib, w, req);
      if Outcome(lib, registry, pending, req).Ok? {
        AloneAccepted(lib, w, req);
      } else {
        AloneRefused(lib, w, req);
      }
      world := Alone(lib, w, req);
      if lib.key.Some? {
        return Err(lib.key.value);
      }
      var nonce := lib.unhex(req.nonceHex);
      if nonce.None? || |nonce.value| != 32 {
        return Err(BadNonceHex);
      }
      if pending.None? {
        return Err(NoPendingNonce);
      }
      if pending.value != nonce.value {
        return Err(NonceMismatch);
      }
      var entries := VerifiedEntries(lib, nonce.value, req);
      if entries.Err? {
        return Err(entries.error);
      }
      if req.version <= registry.version {
        return Err(NonMonotonicVersion(req.version, registry.version));
      }
      registry := Build(lib, entries.value, req.version);
      if pending == Some(nonce.value) {
        pending := None;
      }
      r := Ok(req.version);
    }
  }

  method VerifiedEntries(lib: Library, nonce: Bytes, req: Request) returns (r: Result<seq<RefreshEntry>, RegistryError>)
    ensures r == VerifyCheck(lib, nonce, req)
    ensures r.Ok? ==> lib.parse(req.entriesJson) == Some(r.value)
  {
    hide SignedMessage, EntryFault;
    var sig := lib.unhex(req.signatureHex);
    if sig.None? || |sig.value| != 64 {
      return Err(BadSignature);
    }
    if !lib.verifies(SignedMessage(nonce, req.version, lib.hash(req.entriesJson)), sig.value) {
      return Err(SignatureInvalid);
    }
    var entries := lib.parse(req.entriesJson);
    if entries.None? {
      return Err(MalformedEntries);
    }
    if |entries.value| == 0 {
      return Err(Empty);
    }
    var fault := CheckEntries(entries.value);
    r := if fault.Some? then Err(fault.value) else Ok(entries.value);
  }

  /** Stops at the first faulty entry. */
  method CheckEntries(entries: seq<RefreshEntry>) returns (fault: Option<RegistryError>)
    ensures fault == EntriesFault(entries)
  {
    hide EntryFault;
    for i := 0 to |entries|
      invariant EntriesFault(entries) == EntriesFault(entries[i..])
    {
      var f := EntryFault(entries[i]);
      if f.Some? {
        return f;
      }
      assert entries[i..][1..] == entries[i + 1..];
    }
    fault := None;
  }
}
