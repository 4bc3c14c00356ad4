/** Synchronisation batches: a fold that checks each mutation after those before it, and the order of applying. */
module Sync {
  import opened Options
  import opened Sorting
  import opened Validation

  type Uuid = nat

  const I64_MAX := 0x7fff_ffff_ffff_ffff

  datatype Mutation = Mutation(
    mutationId: Uuid, clipId: Uuid, owner: string, device: string,
    clock: nat, createdAt: int, digest: string)

  datatype Batch = Batch(owner: string, device: string, mutations: seq<Mutation>)

  datatype Policy = Policy(maxBatchSize: nat, maxFutureSkew: int)

  /** Lexicographic in this order. */
  datatype OrderKey = OrderKey(clock: nat, device: string, mutationId: Uuid)

  datatype Validated = Validated(count: nat, highestClock: nat, canonicalIds: seq<Uuid>)

  // ---------------------------------------------------------------------
  // Why a batch is refused
  // ---------------------------------------------------------------------

  function HeaderFailure(now: int, batch: Batch, policy: Policy): Option<CoreError> {
    if now < 0 || policy.maxFutureSkew < 0 then Some(InvalidClock)
    else if policy.maxBatchSize == 0 then Some(BatchTooLarge)
    else if !PortableIdentifier(batch.owner) then Some(InvalidIdentifier)
    else if !PortableIdentifier(batch.device) then Some(InvalidIdentifier)
    else if batch.mutations == [] then Some(EmptyBatch)
    else if |batch.mutations| > policy.maxBatchSize then Some(BatchTooLarge)
    else if now + policy.maxFutureSkew > I64_MAX then Some(InvalidClock)
    else None
  }

  /** What is wrong with a mutation by itself; 0 is the nil identifier. */
  function MutationFailure(m: Mutation, batch: Batch, latest: int, decode: Decoder): Option<CoreError> {
    if m.mutationId == 0 || m.clipId == 0 then Some(InvalidMutation)
    else if !PortableIdentifier(m.owner) then Some(InvalidMutation)
    else if !PortableIdentifier(m.device) then Some(InvalidMutation)
    else if m.owner != batch.owner || m.device != batch.device then Some(OwnershipMismatch)
    else if m.clock > I64_MAX then Some(LogicalClockOutOfRange)
    else if m.createdAt < 0 || m.createdAt > latest then Some(FutureMutation)
    else if !Sha256(decode, m.digest) then Some(InvalidMutation)
    else None
  }

  predicate SameRecord(m: Mutation, n: Mutation) {
    m.clipId == n.clipId && m.device == n.device && m.clock == n.clock
  }

  /** What is wrong with a mutation after the `earlier` ones. */
  function FailureAfter(m: Mutation, earlier: seq<Mutation>, batch: Batch, latest: int,
    decode: Decoder): Option<CoreError> {
    var own := MutationFailure(m, batch, latest, decode);
    if own.Some? then own
    else if exists i :: 0 <= i < |earlier| && earlier[i].mutationId == m.mutationId then Some(DuplicateMutation)
    else if exists i :: 0 <= i < |earlier| && SameRecord(earlier[i], m) then Some(DuplicateRecordClock)
    else None
  }

  /** The first failure among the first `n` mutations. */
  function FirstFailure(batch: Batch, n: nat, latest: int, decode: Decoder): Option<CoreError>
    requires n <= |batch.mutations|
  {
    if n == 0 then None
    else
      var before := FirstFailure(batch, n - 1, latest, decode);
      if before.Some? then before
      else FailureAfter(batch.mutations[n - 1], batch.mutations[..n - 1], batch, latest, decode)
  }

  function Failure(now: int, batch: Batch, policy: Policy, decode: Decoder): Option<CoreError> {
    var header := HeaderFailure(now, batch, policy);
    if header.Some? then header
    else FirstFailure(batch, |batch.mutations|, now + policy.maxFutureSkew, decode)
  }

  // ---------------------------------------------------------------------
  // What an accepted batch comes to
  // ---------------------------------------------------------------------

  function KeyOf(m: Mutation): OrderKey {
    OrderKey(m.clock, m.device, m.mutationId)
  }

  function Keys(mutations: seq<Mutation>): seq<OrderKey> {
    seq(|mutations|, i requires 0 <= i < |mutations| => KeyOf(mutations[i]))
  }

  function IdsOf(keys: seq<OrderKey>): seq<Uuid> {
    seq(|keys|, i requires 0 <= i < |keys| => keys[i].mutationId)
  }

  function InOrder(less: Less<string>): Less<OrderKey> {
    (a: OrderKey, b: OrderKey) =>
      a.clock < b.clock
      || (a.clock == b.clock && (less(a.device, b.device) || (a.device == b.device && a.mutationId < b.mutationId)))
  }

  function Max(a: nat, b: nat): nat {
    if a < b then b else a
  }

  function HighestClock(mutations: seq<Mutation>): nat
    decreases |mutations|
  {
    if mutations == [] then 0
    else Max(HighestClock(mutations[..|mutations| - 1]), mutations[|mutations| - 1].clock)
  }

  function Summary(mutations: seq<Mutation>, less: Less<string>): Validated {
    Validated(|mutations|, HighestClock(mutations), IdsOf(Sort(Keys(mutations), InOrder(less))))
  }

  // ---------------------------------------------------------------------
  // The check as a fold
  // ---------------------------------------------------------------------

  type RecordClock = (Uuid, string, nat)

  datatype Fold = Fold(ids: set<Uuid>, clocks: set<RecordClock>, order: seq<OrderKey>, highest: nat)

  ghost predicate IdsCollected(mutations: seq<Mutation>, ids: set<Uuid>) {
    forall id :: id in ids <==> exists i :: 0 <= i < |mutations| && mutations[i].mutationId == id
  }

  function RecordOf(m: Mutation): RecordClock {
    (m.clipId, m.device, m.clock)
  }

  ghost predicate ClocksCollected(mutations: seq<Mutation>, clocks: set<RecordClock>) {
    forall m: Mutation :: RecordOf(m) in clocks <==> exists i :: 0 <= i < |mutations| && SameRecord(mutations[i], m)
  }

  /** What the fold carries after `mutations`. */
  ghost predicate FoldOf(fold: Fold, mutations: seq<Mutation>) {
    && IdsCollected(mutations, fold.ids) && ClocksCollected(mutations, fold.clocks)
    && fold.order == Keys(mutations) && fold.highest == HighestClock(mutations)
  }

  lemma OneMoreCollected(earlier: seq<Mutation>, m: Mutation, fold: Fold)
    requires IdsCollected(earlier, fold.ids) && ClocksCollected(earlier, fold.clocks)
    ensures IdsCollected(earlier + [m], fold.ids + {m.mutationId})
    ensures ClocksCollected(earlier + [m], fold.clocks + {RecordOf(m)})
  {
    var longer := earlier + [m];
    assert longer[|earlier|] == m;
    assert forall i :: 0 <= i < |earlier| ==> longer[i] == earlier[i];
  }

  lemma OneMoreSummed(earlier: seq<Mutation>, m: Mutation)
    ensures Keys(earlier + [m]) == Keys(earlier) + [KeyOf(m)]
    ensures HighestClock(earlier + [m]) == Max(HighestClock(earlier), m.clock)
  {
    assert (earlier + [m])[..|earlier|] == earlier;
  }

  method IncorporateMutation(fold: Fold, m: Mutation, batch: Batch, latest: int, decode: Decoder,
    ghost earlier: seq<Mutation>)
    returns (r: Checked<Fold>)
    requires FoldOf(fold, earlier)
    ensures r.Failed? ==> FailureAfter(m, earlier, batch, latest, decode) == Some(r.error)
    ensures r.Passed? ==> FailureAfter(m, earlier, batch, latest, decode).None? && FoldOf(r.value, earlier + [m])
  {
    var own := MutationFailure(m, batch, latest, decode);
    if own.Some? {
      return Failed(own.value);
    }
    if m.mutationId in fold.ids {
      return Failed(DuplicateMutation);
    }
    if RecordOf(m) in fold.clocks {
      return Failed(DuplicateRecordClock);
    }
    OneMoreCollected(earlier, m, fold);
    OneMoreSummed(earlier, m);
    r := Passed(Fold(fold.ids + {m.mutationId}, fold.clocks + {RecordOf(m)}, fold.order + [KeyOf(m)],
      Max(fold.highest, m.clock)));
  }

  /** Later mutations do not hide a failure. */
  lemma {:induction false} FailureStays(batch: Batch, n: nat, k: nat, latest: int, decode: Decoder)
    requires n <= k <= |batch.mutations| && FirstFailure(batch, n, latest, decode).Some?
    ensures FirstFailure(batch, k, latest, decode) == FirstFailure(batch, n, latest, decode)
    decreases k
  {
    if n == k {
    } else {
      FailureStays(batch, n, k - 1, latest, decode);
    }
  }

  lemma FailsAtOnce(batch: Batch, n: nat, latest: int, decode: Decoder)
    requires n < |batch.mutations| && FirstFailure(batch, n, latest, decode).None?
    requires FailureAfter(batch.mutations[n], batch.mutations[..n], batch, latest, decode).Some?
    ensures FirstFailure(batch, |batch.mutations|, latest, decode) ==
      FailureAfter(batch.mutations[n], batch.mutations[..n], batch, latest, decode)
  {
    FailureStays(batch, n + 1, |batch.mutations|, latest, decode);
  }

  method ValidateSyncBatch(now: int, batch: Batch, policy: Policy, decode: Decoder, less: Less<string>)
    returns (r: Checked<Validated>)
    ensures r == match Failure(now, batch, policy, decode)
      case Some(error) => Failed(error)
      case None => Passed(Summary(batch.mutations, less))
  {
    var header := HeaderFailure(now, batch, policy);
    if header.Some? {
      return Failed(header.value);
    }
    var latest := now + policy.maxFutureSkew;
    var fold := Fold({}, {}, [], 0);
    assert FoldOf(fold, batch.mutations[..0]);
    for n := 0 to |batch.mutations|
      invariant FirstFailure(batch, n, latest, decode).None?
      invariant FoldOf(fold, batch.mutations[..n])
    {
      var next := IncorporateMutation(fold, batch.mutations[n], batch, latest, decode, batch.mutations[..n]);
      if next.Failed? {
        FailsAtOnce(batch, n, latest, decode);
        return Failed(next.error);
      }
      assert batch.mutations[..n] + [batch.mutations[n]] == batch.mutations[..n + 1];
      fold := next.value;
    }
    assert batch.mutations[..|batch.mutations|] == batch.mutations;
    r := Passed(Validated(|batch.mutations|, fold.highest, IdsOf(Sort(fold.order, InOrder(less)))));
  }

  // ---------------------------------------------------------------------
  // Acceptance does not depend on the order of mutations
  // ---------------------------------------------------------------------

  /** No two mutations share an identifier or stand for the same change of a record. */
  predicate Unrelated(mutations: seq<Mutation>) {
    forall i, j :: 0 <= i < j < |mutations| ==>
      mutations[i].mutationId != mutations[j].mutationId && !SameRecord(mutations[i], mutations[j])
  }

  /** The batch is this owner's and this device's, sent at a time there can be, with some mutations and not too many. */
  predicate SoundHeader(now: int, batch: Batch, policy: Policy) {
    && 0 <= now && 0 <= policy.maxFutureSkew && now + policy.maxFutureSkew <= 0x7fff_ffff_ffff_ffff
    && PortableIdentifier(batch.owner) && PortableIdentifier(batch.device)
    && 1 <= |batch.mutations| <= policy.maxBatchSize
  }

  predicate Named(m: Mutation) {
    m.mutationId != 0 && m.clipId != 0 && PortableIdentifier(m.owner) && PortableIdentifier(m.device)
  }

  predicate Owned(m: Mutation, batch: Batch) {
    m.owner == batch.owner && m.device == batch.device
  }

  predicate Timely(m: Mutation, latest: int) {
    m.clock <= 0x7fff_ffff_ffff_ffff && 0 <= m.createdAt <= latest
  }

  /** The digest is 32 bytes of Base64. */
  predicate Digested(m: Mutation, decode: Decoder) {
    1 <= |m.digest| <= 44 && decode(m.digest) == Some(32)
  }

  predicate AllSound(mutations: seq<Mutation>, batch: Batch, latest: int, decode: Decoder) {
    forall i :: 0 <= i < |mutations| ==>
      && Named(mutations[i]) && Owned(mutations[i], batch) && Timely(mutations[i], latest)
      && Digested(mutations[i], decode)
  }

  lemma SoundExactly(m: Mutation, batch: Batch, latest: int, decode: Decoder)
    ensures MutationFailure(m, batch, latest, decode).None? <==>
      Named(m) && Owned(m, batch) && Timely(m, latest) && Digested(m, decode)
  {
  }

  lemma SoundSnoc(shorter: seq<Mutation>, m: Mutation, batch: Batch, latest: int, decode: Decoder)
    ensures AllSound(shorter + [m], batch, latest, decode) <==>
      AllSound(shorter, batch, latest, decode) && MutationFailure(m, batch, latest, decode).None?
  {
    SoundExactly(m, batch, latest, decode);
    var longer := shorter + [m];
    assert longer[|shorter|] == m;
    assert forall i :: 0 <= i < |shorter| ==> longer[i] == shorter[i];
  }

  predicate RelatedTo(m: Mutation, earlier: seq<Mutation>) {
    exists i :: 0 <= i < |earlier| && (earlier[i].mutationId == m.mutationId || SameRecord(earlier[i], m))
  }

  lemma UnrelatedSnoc(shorter: seq<Mutation>, m: Mutation)
    ensures Unrelated(shorter + [m]) <==> Unrelated(shorter) && !RelatedTo(m, shorter)
  {
    var longer := shorter + [m];
    assert longer[|shorter|] == m;
    assert forall i :: 0 <= i < |shorter| ==> longer[i] == shorter[i];
  }

  lemma {:induction false} NoFailureMeansUnrelated(batch: Batch, n: nat, latest: int, decode: Decoder)
    requires n <= |batch.mutations|
    ensures FirstFailure(batch, n, latest, decode).None? <==>
      AllSound(batch.mutations[..n], batch, latest, decode) && Unrelated(batch.mutations[..n])
    decreases n
  {
    if n == 0 {
    } else {
      NoFailureMeansUnrelated(batch, n - 1, latest, decode);
      var shorter, longer := batch.mutations[..n - 1], batch.mutations[..n];
      assert longer == shorter + [batch.mutations[n - 1]];
      SoundSnoc(shorter, batch.mutations[n - 1], batch, latest, decode);
      UnrelatedSnoc(shorter, batch.mutations[n - 1]);
    }
  }

  /** Declaratively: a sound header, sound mutations, no two related. */
  predicate Acceptable(now: int, batch: Batch, policy: Policy, decode: Decoder) {
    && SoundHeader(now, batch, policy)
    && AllSound(batch.mutations, batch, now + policy.maxFutureSkew, decode)
    && Unrelated(batch.mutations)
  }

  lemma AcceptedExactly(now: int, batch: Batch, policy: Policy, decode: Decoder)
    ensures Failure(now, batch, policy, decode).None? <==> Acceptable(now, batch, policy, decode)
  {
    NoFailureMeansUnrelated(batch, |batch.mutations|, now + policy.maxFutureSkew, decode);
    assert batch.mutations[..|batch.mutations|] == batch.mutations;
  }

  /** The header is refused as `error`. */
  predicate HeaderRefused(now: int, batch: Batch, policy: Policy, error: CoreError) {
    var timed := 0 <= now && 0 <= policy.maxFutureSkew;
    var portable := PortableIdentifier(batch.owner) && PortableIdentifier(batch.device);
    var counted := 1 <= |batch.mutations| <= policy.maxBatchSize;
    match error
    case InvalidClock =>
      !timed || (portable && counted && now + policy.maxFutureSkew > 0x7fff_ffff_ffff_ffff)
    case InvalidIdentifier => timed && policy.maxBatchSize > 0 && !portable
    case EmptyBatch => timed && policy.maxBatchSize > 0 && portable && |batch.mutations| == 0
    case BatchTooLarge => timed && (policy.maxBatchSize == 0 || (portable && |batch.mutations| > policy.maxBatchSize))
    case _ => false
  }

  /** `m` is refused as `error` after the `earlier` mutations. */
  predicate Refused(m: Mutation, earlier: seq<Mutation>, batch: Batch, latest: int, decode: Decoder,
    error: CoreError) {
    var inRange := m.clock <= 0x7fff_ffff_ffff_ffff;
    var sound := Named(m) && Owned(m, batch) && Timely(m, latest) && Digested(m, decode);
    var repeated := exists i :: 0 <= i < |earlier| && earlier[i].mutationId == m.mutationId;
    match error
    case InvalidMutation =>
      !Named(m) || (Owned(m, batch) && Timely(m, latest) && !Digested(m, decode))
    case OwnershipMismatch => Named(m) && !(m.owner == batch.owner && m.device == batch.device)
    case LogicalClockOutOfRange => Named(m) && Owned(m, batch) && !inRange
    case FutureMutation => Named(m) && Owned(m, batch) && inRange && !(0 <= m.createdAt <= latest)
    case DuplicateMutation => sound && repeated
    case DuplicateRecordClock => sound && !repeated && RelatedTo(m, earlier)
    case _ => false
  }

  lemma RefusedForReason(m: Mutation, earlier: seq<Mutation>, batch: Batch, latest: int, decode: Decoder,
    error: CoreError)
    ensures FailureAfter(m, earlier, batch, latest, decode) == Some(error) <==>
      Refused(m, earlier, batch, latest, decode, error)
  {
  }

  /** The `k`-th mutation is refused as `error`, and none before it is. */
  predicate RefusedAt(batch: Batch, k: nat, latest: int, decode: Decoder, error: CoreError)
    requires k < |batch.mutations|
  {
    && AllSound(batch.mutations[..k], batch, latest, decode) && Unrelated(batch.mutations[..k])
    && Refused(batch.mutations[k], batch.mutations[..k], batch, latest, decode, error)
  }

  lemma RefusedAtExactly(batch: Batch, k: nat, latest: int, decode: Decoder, error: CoreError)
    requires k < |batch.mutations|
    ensures RefusedAt(batch, k, latest, decode, error) <==>
      && FirstFailure(batch, k, latest, decode).None?
      && FailureAfter(batch.mutations[k], batch.mutations[..k], batch, latest, decode) == Some(error)
  {
    NoFailureMeansUnrelated(batch, k, latest, decode);
    RefusedForReason(batch.mutations[k], batch.mutations[..k], batch, latest, decode, error);
  }

  /** Where the first failure is found. */
  lemma {:induction false} FailsSomewhere(batch: Batch, n: nat, latest: int, decode: Decoder) returns (k: nat)
    requires n <= |batch.mutations| && FirstFailure(batch, n, latest, decode).Some?
    ensures k < n && FirstFailure(batch, k, latest, decode).None?
    ensures FirstFailure(batch, n, latest, decode) ==
      FailureAfter(batch.mutations[k], batch.mutations[..k], batch, latest, decode)
    decreases n
  {
    if FirstFailure(batch, n - 1, latest, decode).Some? {
      k := FailsSomewhere(batch, n - 1, latest, decode);
    } else {
      k := n - 1;
    }
  }

  /** Some mutation is the first to be refused, and is refused as `error`. */
  predicate FirstRefused(batch: Batch, latest: int, decode: Decoder, error: CoreError) {
    exists k :: 0 <= k < |batch.mutations| && RefusedAt(batch, k, latest, decode, error)
  }

  lemma FirstRefusedExactly(batch: Batch, latest: int, decode: Decoder, error: CoreError)
    ensures FirstFailure(batch, |batch.mutations|, latest, decode) == Some(error) <==>
      FirstRefused(batch, latest, decode, error)
  {
    if FirstFailure(batch, |batch.mutations|, latest, decode) == Some(error) {
      var k := FailsSomewhere(batch, |batch.mutations|, latest, decode);
      RefusedAtExactly(batch, k, latest, decode, error);
    }
    if k :| 0 <= k < |batch.mutations| && RefusedAt(batch, k, latest, decode, error) {
      RefusedAtExactly(batch, k, latest, decode, error);
      FailsAtOnce(batch, k, latest, decode);
    }
  }

  lemma HeaderRefusedExactly(now: int, batch: Batch, policy: Policy, error: CoreError)
    ensures HeaderFailure(now, batch, policy) == Some(error) <==> HeaderRefused(now, batch, policy, error)
    ensures HeaderFailure(now, batch, policy).None? <==> SoundHeader(now, batch, policy)
  {
  }

  /** The error of a refused batch is the first one that applies: to the header, then to one mutation after another. */
  lemma RefusedExactly(now: int, batch: Batch, policy: Policy, decode: Decoder, error: CoreError)
    ensures Failure(now, batch, policy, decode) == Some(error) <==>
      || HeaderRefused(now, batch, policy, error)
      || (&& SoundHeader(now, batch, policy)
          && FirstRefused(batch, now + policy.maxFutureSkew, decode, error))
  {
    HeaderRefusedExactly(now, batch, policy, error);
    FirstRefusedExactly(batch, now + policy.maxFutureSkew, decode, error);
  }

  /** `part` is some of the mutations of `whole`. */
  ghost predicate Within(part: seq<Mutation>, whole: seq<Mutation>) {
    multiset(part) <= multiset(whole)
  }

  lemma OccursOnce(mutations: seq<Mutation>, k: nat)
    requires Unrelated(mutations) && k < |mutations|
    ensures multiset(mutations)[mutations[k]] == 1
  {
    var m := mutations[k];
    assert mutations == mutations[..k] + [m] + mutations[k + 1..];
    assert m !in mutations[..k];
    assert m !in mutations[k + 1..];
  }

  lemma TwoWithin(part: seq<Mutation>, whole: seq<Mutation>, i: nat, j: nat)
    requires Within(part, whole) && Unrelated(whole) && i < j < |part|
    ensures part[i].mutationId != part[j].mutationId && !SameRecord(part[i], part[j])
  {
    var x, y := part[i], part[j];
    assert x in multiset(part) && y in multiset(part);
    var k :| 0 <= k < |whole| && whole[k] == x;
    var l :| 0 <= l < |whole| && whole[l] == y;
    if k == l {
      OccursTwice(part, i, j);
      OccursOnce(whole, k);
    }
  }

  lemma UnrelatedWithin(part: seq<Mutation>, whole: seq<Mutation>)
    requires Within(part, whole) && Unrelated(whole)
    ensures Unrelated(part)
  {
    forall i, j | 0 <= i < j < |part|
      ensures part[i].mutationId != part[j].mutationId && !SameRecord(part[i], part[j]) {
      TwoWithin(part, whole, i, j);
    }
  }

  lemma WithinIsShorter(part: seq<Mutation>, whole: seq<Mutation>)
    requires Within(part, whole)
    ensures |part| <= |whole|
  {
    assert multiset(whole) == multiset(part) + (multiset(whole) - multiset(part));
    assert |multiset(whole)| == |multiset(part)| + |multiset(whole) - multiset(part)|;
    assert |multiset(part)| == |part| && |multiset(whole)| == |whole|;
  }

  /** Any mutations of an accepted batch, in any order, make an accepted batch, as long as there are some. */
  lemma PartsAreAccepted(now: int, batch: Batch, part: seq<Mutation>, policy: Policy, decode: Decoder)
    requires Failure(now, batch, policy, decode).None?
    requires part != [] && Within(part, batch.mutations)
    ensures Failure(now, batch.(mutations := part), policy, decode).None?
  {
    AcceptedExactly(now, batch, policy, decode);
    UnrelatedWithin(part, batch.mutations);
    WithinIsShorter(part, batch.mutations);
    var smaller := batch.(mutations := part);
    forall i | 0 <= i < |part|
      ensures Named(part[i]) && Owned(part[i], smaller) && Timely(part[i], now + policy.maxFutureSkew)
      ensures Digested(part[i], decode)
    {
      assert part[i] in multiset(part);
      var k :| 0 <= k < |batch.mutations| && batch.mutations[k] == part[i];
    }
    AcceptedExactly(now, smaller, policy, decode);
  }

  // ---------------------------------------------------------------------
  // The canonical order
  // ---------------------------------------------------------------------

  lemma {:induction false} HighestIsLargest(mutations: seq<Mutation>)
    ensures forall i :: 0 <= i < |mutations| ==> mutations[i].clock <= HighestClock(mutations)
    ensures mutations != [] ==> exists i :: 0 <= i < |mutations| && mutations[i].clock == HighestClock(mutations)
    decreases |mutations|
  {
    if mutations == [] {
    } else {
      var shorter, last := mutations[..|mutations| - 1], mutations[|mutations| - 1];
      HighestIsLargest(shorter);
      if last.clock >= HighestClock(shorter) {
        assert mutations[|mutations| - 1].clock == HighestClock(mutations);
      } else {
        var i :| 0 <= i < |shorter| && shorter[i].clock == HighestClock(shorter);
        assert mutations[i].clock == HighestClock(mutations);
      }
    }
  }

  lemma OrderIsStrict(less: Less<string>)
    requires StrictTotal(less)
    ensures StrictOrder(InOrder(less))
  {
    var order := InOrder(less);
    forall a: OrderKey ensures !order(a, a) {
      assert !less(a.device, a.device);
    }
    forall a: OrderKey, b: OrderKey, c: OrderKey | order(a, b) && order(b, c) ensures order(a, c) {
      assert less(a.device, b.device) && less(b.device, c.device) ==> less(a.device, c.device);
    }
  }

  lemma KeyOnce(mutations: seq<Mutation>, i: nat)
    requires Unrelated(mutations) && i < |mutations|
    ensures multiset(Keys(mutations))[KeyOf(mutations[i])] == 1
  {
    var keys := Keys(mutations);
    var k := keys[i];
    assert keys == keys[..i] + [k] + keys[i + 1..];
    assert k !in keys[..i];
    assert k !in keys[i + 1..];
  }

  lemma KeysCompare(mutations: seq<Mutation>, less: Less<string>)
    requires StrictTotal(less) && Unrelated(mutations)
    ensures Comparable(Keys(mutations), InOrder(less))
  {
    var keys := Keys(mutations);
    forall k | k in multiset(keys) ensures multiset(keys)[k] == 1 {
      var i :| 0 <= i < |keys| && keys[i] == k;
      KeyOnce(mutations, i);
    }
  }

  /** The identifiers come out once each, strictly in the order of clock, device and identifier. */
  lemma CanonicalOrder(mutations: seq<Mutation>, less: Less<string>)
    requires StrictTotal(less) && Unrelated(mutations)
    ensures var sorted := Sort(Keys(mutations), InOrder(less));
      && Summary(mutations, less).canonicalIds == IdsOf(sorted)
      && multiset(sorted) == multiset(Keys(mutations))
      && Sorted(sorted, InOrder(less))
  {
    OrderIsStrict(less);
    KeysCompare(mutations, less);
    SortSorts(Keys(mutations), InOrder(less));
    SortKeeps(Keys(mutations), InOrder(less));
  }

  // ---------------------------------------------------------------------
  // The result does not depend on the order of mutations
  // ---------------------------------------------------------------------

  lemma {:induction false} KeysCount(mutations: seq<Mutation>, k: OrderKey)
    ensures multiset(Keys(mutations))[k] > 0 <==> exists i :: 0 <= i < |mutations| && KeyOf(mutations[i]) == k
  {
    var keys := Keys(mutations);
    if i :| 0 <= i < |mutations| && KeyOf(mutations[i]) == k {
      assert keys[i] == k;
      assert k in keys;
    }
    if k in keys {
      var i :| 0 <= i < |keys| && keys[i] == k;
      assert KeyOf(mutations[i]) == k;
    }
  }

  predicate HasKey(mutations: seq<Mutation>, k: OrderKey) {
    exists i :: 0 <= i < |mutations| && KeyOf(mutations[i]) == k
  }

  lemma HasKeyMoves(a: seq<Mutation>, b: seq<Mutation>, k: OrderKey)
    requires multiset(a) == multiset(b) && HasKey(a, k)
    ensures HasKey(b, k)
  {
    SameElements(a, b);
    var i :| 0 <= i < |a| && KeyOf(a[i]) == k;
    assert a[i] in b;
    var j :| 0 <= j < |b| && b[j] == a[i];
    assert KeyOf(b[j]) == k;
  }

  lemma KeyCountedOnce(mutations: seq<Mutation>, k: OrderKey)
    requires Unrelated(mutations)
    ensures multiset(Keys(mutations))[k] == if HasKey(mutations, k) then 1 else 0
  {
    KeysCount(mutations, k);
    if i :| 0 <= i < |mutations| && KeyOf(mutations[i]) == k {
      KeyOnce(mutations, i);
    }
  }

  lemma KeyInBoth(a: seq<Mutation>, b: seq<Mutation>, k: OrderKey)
    requires multiset(a) == multiset(b) && Unrelated(a) && Unrelated(b)
    ensures multiset(Keys(a))[k] == multiset(Keys(b))[k]
  {
    KeyCountedOnce(a, k);
    KeyCountedOnce(b, k);
    if HasKey(a, k) {
      HasKeyMoves(a, b, k);
    }
    if HasKey(b, k) {
      HasKeyMoves(b, a, k);
    }
  }

  lemma SameKeys(a: seq<Mutation>, b: seq<Mutation>)
    requires multiset(a) == multiset(b) && Unrelated(a)
    ensures multiset(Keys(a)) == multiset(Keys(b)) && Unrelated(b)
  {
    UnrelatedWithin(b, a);
    forall k ensures multiset(Keys(a))[k] == multiset(Keys(b))[k] {
      KeyInBoth(a, b, k);
    }
  }

  lemma SameHighest(a: seq<Mutation>, b: seq<Mutation>)
    requires multiset(a) == multiset(b)
    ensures HighestClock(a) <= HighestClock(b)
  {
    SameElements(a, b);
    HighestIsLargest(a);
    HighestIsLargest(b);
    if a != [] {
      var i :| 0 <= i < |a| && a[i].clock == HighestClock(a);
      assert a[i] in b;
      var j :| 0 <= j < |b| && b[j] == a[i];
    }
  }

  lemma SummaryDetermined(a: seq<Mutation>, b: seq<Mutation>, less: Less<string>)
    requires StrictTotal(less) && multiset(a) == multiset(b) && Unrelated(a)
    ensures Summary(a, less) == Summary(b, less)
  {
    SameElements(a, b);
    SameHighest(a, b);
    SameHighest(b, a);
    SameKeys(a, b);
    OrderIsStrict(less);
    KeysCompare(a, less);
    SortDetermined(Keys(a), Keys(b), InOrder(less));
  }

  /** Permuting the mutations of a batch changes neither whether it is accepted nor what comes of it. */
  lemma OrderIrrelevant(now: int, batch: Batch, permuted: seq<Mutation>, policy: Policy, decode: Decoder,
    less: Less<string>)
    requires StrictTotal(less) && multiset(permuted) == multiset(batch.mutations)
    ensures var other := batch.(mutations := permuted);
      && (Failure(now, batch, policy, decode).None? <==> Failure(now, other, policy, decode).None?)
      && (Failure(now, batch, policy, decode).None? ==> Summary(permuted, less) == Summary(batch.mutations, less))
  {
    var other := batch.(mutations := permuted);
    SameElements(permuted, batch.mutations);
    if Failure(now, batch, policy, decode).None? {
      AcceptedExactly(now, batch, policy, decode);
      PartsAreAccepted(now, batch, permuted, policy, decode);
      SummaryDetermined(batch.mutations, permuted, less);
    } else if Failure(now, other, policy, decode).None? {
      AcceptedExactly(now, other, policy, decode);
      assert other.(mutations := batch.mutations) == batch;
      PartsAreAccepted(now, other, batch.mutations, policy, decode);
      assert false;
    }
  }

  // ---------------------------------------------------------------------
  // One owner and one device leave the clocks and identifiers to decide
  // ---------------------------------------------------------------------

  predicate Earlier(m: Mutation, n: Mutation) {
    m.clock < n.clock || (m.clock == n.clock && m.mutationId < n.mutationId)
  }

  function ByKey(less: Less<string>): Less<Mutation> {
    (m: Mutation, n: Mutation) => InOrder(less)(KeyOf(m), KeyOf(n))
  }

  lemma ByKeyIsStrict(less: Less<string>)
    requires StrictTotal(less)
    ensures StrictOrder(ByKey(less))
  {
    OrderIsStrict(less);
    var before, order := InOrder(less), ByKey(less);
    assert forall m: Mutation, n: Mutation :: order(m, n) == before(KeyOf(m), KeyOf(n));
    forall a: Mutation ensures !order(a, a) {
      assert !before(KeyOf(a), KeyOf(a));
    }
    forall a: Mutation, b: Mutation, c: Mutation | order(a, b) && order(b, c) ensures order(a, c) {
      assert before(KeyOf(a), KeyOf(b)) && before(KeyOf(b), KeyOf(c)) ==> before(KeyOf(a), KeyOf(c));
    }
  }

  lemma TwoCompare(mutations: seq<Mutation>, m: Mutation, n: Mutation, less: Less<string>)
    requires StrictTotal(less) && Unrelated(mutations) && m in mutations && n in mutations && m != n
    ensures ByKey(less)(m, n) || ByKey(less)(n, m)
  {
    var i :| 0 <= i < |mutations| && mutations[i] == m;
    var j :| 0 <= j < |mutations| && mutations[j] == n;
    assert m.mutationId != n.mutationId;
    assert m.device == n.device || less(m.device, n.device) || less(n.device, m.device);
    assert ByKey(less)(m, n) == InOrder(less)(KeyOf(m), KeyOf(n));
    assert ByKey(less)(n, m) == InOrder(less)(KeyOf(n), KeyOf(m));
  }

  lemma MutationsCompare(mutations: seq<Mutation>, less: Less<string>)
    requires StrictTotal(less) && Unrelated(mutations)
    ensures Comparable(mutations, ByKey(less))
  {
    forall m | m in multiset(mutations) ensures multiset(mutations)[m] == 1 {
      var k :| 0 <= k < |mutations| && mutations[k] == m;
      OccursOnce(mutations, k);
    }
    forall m, n | m in mutations && n in mutations ensures m == n || ByKey(less)(m, n) || ByKey(less)(n, m) {
      if m != n {
        TwoCompare(mutations, m, n, less);
      }
    }
  }

  /** The mutations as they are to be applied. */
  function Applied(mutations: seq<Mutation>, less: Less<string>): seq<Mutation> {
    Sort(mutations, ByKey(less))
  }

  lemma AppliedIsSorted(mutations: seq<Mutation>, less: Less<string>)
    requires StrictTotal(less) && Unrelated(mutations)
    ensures var applied := Applied(mutations, less);
      && multiset(applied) == multiset(mutations)
      && Summary(mutations, less).canonicalIds == IdsOf(Keys(applied))
      && Sorted(applied, ByKey(less))
  {
    var applied := Applied(mutations, less);
    ByKeyIsStrict(less);
    MutationsCompare(mutations, less);
    SortSorts(mutations, ByKey(less));
    SortKeeps(mutations, ByKey(less));
    SameKeys(mutations, applied);
    CanonicalOrder(mutations, less);
    OrderIsStrict(less);
    assert forall i, j :: 0 <= i < j < |applied| ==> ByKey(less)(applied[i], applied[j]);
    SortedUnique(Keys(applied), Sort(Keys(mutations), InOrder(less)), InOrder(less));
  }

  /** An accepted batch is applied by clock and then by identifier, each mutation once. */
  lemma AcceptedOrder(now: int, batch: Batch, policy: Policy, decode: Decoder, less: Less<string>)
    returns (applied: seq<Mutation>)
    requires StrictTotal(less) && Failure(now, batch, policy, decode).None?
    ensures multiset(applied) == multiset(batch.mutations)
    ensures forall i, j :: 0 <= i < j < |applied| ==> Earlier(applied[i], applied[j])
    ensures var ids := Summary(batch.mutations, less).canonicalIds;
      && |ids| == |applied| == Summary(batch.mutations, less).count
      && forall i :: 0 <= i < |ids| ==> ids[i] == applied[i].mutationId
  {
    AcceptedExactly(now, batch, policy, decode);
    applied := Applied(batch.mutations, less);
    AppliedIsSorted(batch.mutations, less);
    SameElements(applied, batch.mutations);
    assert forall m :: m in batch.mutations ==> m.device == batch.device;
    forall i, j | 0 <= i < j < |applied| ensures Earlier(applied[i], applied[j]) {
      assert applied[i] in batch.mutations && applied[j] in batch.mutations;
      assert ByKey(less)(applied[i], applied[j]);
      assert !less(batch.device, batch.device);
    }
  }

  /** How devices compare makes no difference to an accepted batch. */
  lemma OneDeviceDecidesNothing(now: int, batch: Batch, policy: Policy, decode: Decoder, less: Less<string>,
    other: Less<string>)
    requires StrictTotal(less) && StrictTotal(other) && Failure(now, batch, policy, decode).None?
    ensures Summary(batch.mutations, less) == Summary(batch.mutations, other)
  {
    var byLess := AcceptedOrder(now, batch, policy, decode, less);
    var byOther := AcceptedOrder(now, batch, policy, decode, other);
    SortedUnique(byLess, byOther, (m: Mutation, n: Mutation) => Earlier(m, n));
  }
}
