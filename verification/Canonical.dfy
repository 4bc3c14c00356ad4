/** The canonical form of a JSON document: documents that differ in nothing but the order of keys have the same. */
module Canonical {
  import opened Decimals
  import opened Sorting

  /** `members` in the order the object lists its keys. */
  datatype Json = Scalar(text: string) | List(items: seq<Json>) | Object(members: seq<Member>)

  datatype Member = Member(key: string, value: Json)

  function ByKey(less: Less<string>): Less<Member> {
    (a: Member, b: Member) => less(a.key, b.key)
  }

  // ---------------------------------------------------------------------
  // Building an object
  // ---------------------------------------------------------------------

  const MAX_INDEX := 0xffff_ffff

  /** Keys that JavaScript objects list first, by number. */
  predicate IsIndex(key: string) {
    Digits(key) && Decimal(ParseDecimal(key)) == key && ParseDecimal(key) < MAX_INDEX
  }

  function ByNumber(): Less<Member> {
    (a: Member, b: Member) => IsIndex(a.key) && IsIndex(b.key) && ParseDecimal(a.key) < ParseDecimal(b.key)
  }

  function Having(members: seq<Member>, index: bool): seq<Member>
    decreases |members|
  {
    if members == [] then []
    else (if IsIndex(members[0].key) == index then [members[0]] else []) + Having(members[1..], index)
  }

  /** `Object.fromEntries`: index keys by number, then the others as they come. */
  function FromEntries(members: seq<Member>): seq<Member> {
    Sort(Having(members, true), ByNumber()) + Having(members, false)
  }

  // ---------------------------------------------------------------------
  // The canonical form
  // ---------------------------------------------------------------------

  function CanonMembers(members: seq<Member>, less: Less<string>): (r: seq<Member>)
    ensures |r| == |members|
    ensures forall i :: 0 <= i < |members| ==> r[i] == Member(members[i].key, Canon(members[i].value, less))
  {
    if members == [] then []
    else [Member(members[0].key, Canon(members[0].value, less))] + CanonMembers(members[1..], less)
  }

  function Canon(t: Json, less: Less<string>): Json {
    match t
    case Scalar(_) => t
    case List(items) => List(CanonItems(items, less))
    case Object(members) => Object(FromEntries(Sort(CanonMembers(members, less), ByKey(less))))
  }

  function CanonItems(items: seq<Json>, less: Less<string>): (r: seq<Json>)
    ensures |r| == |items| && forall i :: 0 <= i < |items| ==> r[i] == Canon(items[i], less)
  {
    if items == [] then [] else [Canon(items[0], less)] + CanonItems(items[1..], less)
  }

  predicate KeysDistinct(members: seq<Member>) {
    forall i, j :: 0 <= i < j < |members| ==> members[i].key != members[j].key
  }

  /** No object repeats a key, at any depth. */
  predicate Distinct(t: Json) {
    match t
    case Scalar(_) => true
    case List(items) => forall i :: 0 <= i < |items| ==> Distinct(items[i])
    case Object(members) => KeysDistinct(members) && forall i :: 0 <= i < |members| ==> Distinct(members[i].value)
  }

  /** `a` and `b` differ in nothing but the order of keys. */
  predicate Same(a: Json, b: Json) {
    match a
    case Scalar(_) => a == b
    case List(items) => b.List? && |b.items| == |items| && forall i :: 0 <= i < |items| ==> Same(items[i], b.items[i])
    case Object(members) =>
      b.Object? && |b.members| == |members| && forall i :: 0 <= i < |members| ==> HasSame(members[i], b.members)
  }

  predicate HasSame(m: Member, members: seq<Member>) {
    exists j :: 0 <= j < |members| && members[j].key == m.key && Same(m.value, members[j].value)
  }

  // ---------------------------------------------------------------------
  // Arranging members
  // ---------------------------------------------------------------------

  lemma {:induction false} HavingSplits(members: seq<Member>)
    ensures multiset(Having(members, true)) + multiset(Having(members, false)) == multiset(members)
    decreases |members|
  {
    if members == [] {
    } else {
      HavingSplits(members[1..]);
      HeadCounted(members);
      Counted(members[0], Having(members[1..], IsIndex(members[0].key)));
    }
  }

  lemma FromEntriesKeeps(members: seq<Member>)
    ensures multiset(FromEntries(members)) == multiset(members)
  {
    HavingSplits(members);
    SortKeeps(Having(members, true), ByNumber());
  }

  function Arranged(members: seq<Member>, less: Less<string>): seq<Member> {
    FromEntries(Sort(members, ByKey(less)))
  }

  lemma ArrangedKeeps(members: seq<Member>, less: Less<string>)
    ensures multiset(Arranged(members, less)) == multiset(members)
  {
    SortKeeps(members, ByKey(less));
    FromEntriesKeeps(Sort(members, ByKey(less)));
  }

  lemma KeysOccurOnce(members: seq<Member>, m: Member)
    requires KeysDistinct(members) && m in multiset(members)
    ensures multiset(members)[m] == 1
  {
    var i :| 0 <= i < |members| && members[i] == m;
    assert members == members[..i] + [m] + members[i + 1..];
    assert m !in members[..i];
    assert m !in members[i + 1..];
  }

  lemma KeysCompare(members: seq<Member>, less: Less<string>)
    requires StrictTotal(less) && KeysDistinct(members)
    ensures StrictOrder(ByKey(less)) && Comparable(members, ByKey(less))
  {
    var order := ByKey(less);
    forall a: Member ensures !order(a, a) {
      assert !less(a.key, a.key);
    }
    forall a: Member, b: Member, c: Member | order(a, b) && order(b, c) ensures order(a, c) {
      assert less(a.key, b.key) && less(b.key, c.key);
    }
    forall m | m in multiset(members) ensures multiset(members)[m] == 1 {
      KeysOccurOnce(members, m);
    }
    forall x, y | x in members && y in members ensures x == y || order(x, y) || order(y, x) {
      var i :| 0 <= i < |members| && members[i] == x;
      var j :| 0 <= j < |members| && members[j] == y;
      assert i == j || x.key != y.key;
    }
  }

  /** Two lists of members are arranged alike exactly when they have the same members. */
  lemma ArrangedDetermined(a: seq<Member>, b: seq<Member>, less: Less<string>)
    requires StrictTotal(less) && KeysDistinct(a)
    ensures Arranged(a, less) == Arranged(b, less) <==> multiset(a) == multiset(b)
  {
    ArrangedKeeps(a, less);
    ArrangedKeeps(b, less);
    if multiset(a) == multiset(b) {
      KeysCompare(a, less);
      SortDetermined(a, b, ByKey(less));
    }
  }

  lemma SameMembers(a: seq<Member>, b: seq<Member>)
    requires KeysDistinct(a) && KeysDistinct(b) && |a| == |b| && forall i :: 0 <= i < |a| ==> a[i] in b
    ensures multiset(a) == multiset(b)
  {
    forall m ensures multiset(a)[m] <= multiset(b)[m] {
      if m in multiset(a) {
        KeysOccurOnce(a, m);
        assert m in b;
      }
    }
    assert multiset(a) <= multiset(b);
    assert |multiset(b) - multiset(a)| == 0;
    assert multiset(b) == multiset(a) + (multiset(b) - multiset(a));
  }

  // ---------------------------------------------------------------------
  // Canonical forms are equal exactly for documents that differ in key order
  // ---------------------------------------------------------------------

  lemma ListsExactly(a: seq<Json>, b: seq<Json>, less: Less<string>)
    requires |a| == |b|
    requires forall i :: 0 <= i < |a| ==> (Canon(a[i], less) == Canon(b[i], less) <==> Same(a[i], b[i]))
    ensures CanonItems(a, less) == CanonItems(b, less) <==> forall i :: 0 <= i < |a| ==> Same(a[i], b[i])
  {
    if CanonItems(a, less) == CanonItems(b, less) {
      forall i | 0 <= i < |a| ensures Same(a[i], b[i]) {
        assert CanonItems(a, less)[i] == CanonItems(b, less)[i];
      }
    }
  }

  lemma CanonKeysDistinct(members: seq<Member>, less: Less<string>)
    requires KeysDistinct(members)
    ensures KeysDistinct(CanonMembers(members, less))
  {
  }

  /** The canonical values of `a` and `b` are equal where they are the same. */
  predicate ValuesExactly(a: seq<Member>, b: seq<Member>, less: Less<string>) {
    forall i, j :: 0 <= i < |a| && 0 <= j < |b| ==>
      (Canon(a[i].value, less) == Canon(b[j].value, less) <==> Same(a[i].value, b[j].value))
  }

  lemma MemberExactly(a: seq<Member>, b: seq<Member>, less: Less<string>, i: nat)
    requires ValuesExactly(a, b, less) && i < |a|
    ensures CanonMembers(a, less)[i] in CanonMembers(b, less) <==> HasSame(a[i], b)
  {
    var ca, cb := CanonMembers(a, less), CanonMembers(b, less);
    if ca[i] in cb {
      var j :| 0 <= j < |cb| && cb[j] == ca[i];
      assert b[j].key == a[i].key;
    }
    if HasSame(a[i], b) {
      var j :| 0 <= j < |b| && b[j].key == a[i].key && Same(a[i].value, b[j].value);
      assert cb[j] == ca[i];
    }
  }

  lemma SameMembersExactly(a: seq<Member>, b: seq<Member>)
    requires KeysDistinct(a) && KeysDistinct(b)
    ensures multiset(a) == multiset(b) <==> |a| == |b| && forall i :: 0 <= i < |a| ==> a[i] in b
  {
    if multiset(a) == multiset(b) {
      SameElements(a, b);
      forall i | 0 <= i < |a| ensures a[i] in b {
        assert a[i] in a;
      }
    } else if |a| == |b| && forall i :: 0 <= i < |a| ==> a[i] in b {
      SameMembers(a, b);
    }
  }

  lemma MembersExactly(a: seq<Member>, b: seq<Member>, ca: seq<Member>, cb: seq<Member>)
    requires |ca| == |a| && |cb| == |b| && KeysDistinct(ca) && KeysDistinct(cb)
    requires forall i :: 0 <= i < |a| ==> (ca[i] in cb <==> HasSame(a[i], b))
    ensures multiset(ca) == multiset(cb) <==> Same(Object(a), Object(b))
  {
    SameMembersExactly(ca, cb);
  }

  lemma CanonOfObject(members: seq<Member>, less: Less<string>)
    ensures Canon(Object(members), less) == Object(Arranged(CanonMembers(members, less), less))
  {
  }

  lemma ObjectsExactly(a: seq<Member>, b: seq<Member>, less: Less<string>)
    requires StrictTotal(less) && KeysDistinct(a) && KeysDistinct(b) && ValuesExactly(a, b, less)
    ensures Canon(Object(a), less) == Canon(Object(b), less) <==> Same(Object(a), Object(b))
  {
    var ca, cb := CanonMembers(a, less), CanonMembers(b, less);
    CanonOfObject(a, less);
    CanonOfObject(b, less);
    CanonKeysDistinct(a, less);
    CanonKeysDistinct(b, less);
    ArrangedDetermined(ca, cb, less);
    forall i | 0 <= i < |a| ensures ca[i] in cb <==> HasSame(a[i], b) {
      MemberExactly(a, b, less, i);
    }
    MembersExactly(a, b, ca, cb);
  }

  lemma {:induction false} CanonicalExactly(a: Json, b: Json, less: Less<string>)
    requires StrictTotal(less) && Distinct(a) && Distinct(b)
    ensures Canon(a, less) == Canon(b, less) <==> Same(a, b)
    decreases a
  {
    match a {
      case Scalar(_) =>
      case List(items) =>
        if b.List? && |b.items| == |items| {
          forall i | 0 <= i < |items| ensures Canon(items[i], less) == Canon(b.items[i], less) <==>
            Same(items[i], b.items[i]) {
            CanonicalExactly(items[i], b.items[i], less);
          }
          ListsExactly(items, b.items, less);
        }
      case Object(members) =>
        if b.Object? {
          forall i, j | 0 <= i < |members| && 0 <= j < |b.members|
            ensures Canon(members[i].value, less) == Canon(b.members[j].value, less) <==>
              Same(members[i].value, b.members[j].value)
          {
            CanonicalExactly(members[i].value, b.members[j].value, less);
          }
          ObjectsExactly(members, b.members, less);
        }
    }
  }

  // ---------------------------------------------------------------------
  // The form is a document like the one it was made of
  // ---------------------------------------------------------------------

  lemma ArrangedKeysDistinct(members: seq<Member>, less: Less<string>)
    requires KeysDistinct(members)
    ensures KeysDistinct(Arranged(members, less))
  {
    var arranged := Arranged(members, less);
    ArrangedKeeps(members, less);
    SameElements(arranged, members);
    forall i, j | 0 <= i < j < |arranged| ensures arranged[i].key != arranged[j].key {
      var x, y := arranged[i], arranged[j];
      assert x in members && y in members;
      var k :| 0 <= k < |members| && members[k] == x;
      var l :| 0 <= l < |members| && members[l] == y;
      if k == l {
        OccursTwice(arranged, i, j);
        KeysOccurOnce(members, x);
      }
    }
  }

  lemma ArrangedHas(m: Member, made: seq<Member>, i: nat, arranged: seq<Member>)
    requires i < |made| && made[i].key == m.key && Same(m.value, made[i].value) && made[i] in arranged
    ensures HasSame(m, arranged)
  {
    var j :| 0 <= j < |arranged| && arranged[j] == made[i];
    assert arranged[j].key == m.key && Same(m.value, arranged[j].value);
  }

  lemma AllDistinctValues(made: seq<Member>, arranged: seq<Member>)
    requires forall i :: 0 <= i < |made| ==> Distinct(made[i].value)
    requires forall m :: m in arranged ==> m in made
    ensures forall j :: 0 <= j < |arranged| ==> Distinct(arranged[j].value)
  {
    forall j | 0 <= j < |arranged| ensures Distinct(arranged[j].value) {
      assert arranged[j] in made;
      var i :| 0 <= i < |made| && made[i] == arranged[j];
    }
  }

  lemma CanonObjectIsSame(members: seq<Member>, less: Less<string>)
    requires KeysDistinct(members)
    requires forall i :: 0 <= i < |members| ==>
      Same(members[i].value, Canon(members[i].value, less)) && Distinct(Canon(members[i].value, less))
    ensures Same(Object(members), Canon(Object(members), less)) && Distinct(Canon(Object(members), less))
  {
    var made := CanonMembers(members, less);
    var arranged := Arranged(made, less);
    CanonKeysDistinct(members, less);
    ArrangedKeysDistinct(made, less);
    ArrangedKeeps(made, less);
    SameElements(arranged, made);
    forall i | 0 <= i < |members| ensures HasSame(members[i], arranged) {
      ArrangedHas(members[i], made, i, arranged);
    }
    AllDistinctValues(made, arranged);
  }

  /** Canonicalising changes nothing but the order of keys. */
  lemma {:induction false} CanonIsSame(t: Json, less: Less<string>)
    requires Distinct(t)
    ensures Same(t, Canon(t, less)) && Distinct(Canon(t, less))
    decreases t
  {
    match t {
      case Scalar(_) =>
      case List(items) =>
        forall i | 0 <= i < |items| ensures Same(items[i], Canon(items[i], less)) && Distinct(Canon(items[i], less)) {
          CanonIsSame(items[i], less);
        }
      case Object(members) =>
        forall i | 0 <= i < |members|
          ensures Same(members[i].value, Canon(members[i].value, less)) && Distinct(Canon(members[i].value, less))
        {
          CanonIsSame(members[i].value, less);
        }
        CanonObjectIsSame(members, less);
    }
  }

  lemma CanonIdempotent(t: Json, less: Less<string>)
    requires StrictTotal(less) && Distinct(t)
    ensures Canon(Canon(t, less), less) == Canon(t, less)
  {
    CanonIsSame(t, less);
    CanonicalExactly(t, Canon(t, less), less);
  }

  // ---------------------------------------------------------------------
  // The order in which the form lists keys
  // ---------------------------------------------------------------------

  lemma {:induction false} HavingKeepsOrder(members: seq<Member>, index: bool, less: Less<Member>)
    requires Sorted(members, less)
    ensures Sorted(Having(members, index), less)
    ensures forall m :: m in Having(members, index) <==> m in members && IsIndex(m.key) == index
    decreases |members|
  {
    if members == [] {
    } else {
      HavingKeepsOrder(members[1..], index, less);
      var tail := Having(members[1..], index);
      forall i | 0 <= i < |tail| ensures less(members[0], tail[i]) {
        assert tail[i] in members[1..];
        var k :| 1 <= k < |members| && members[k] == tail[i];
      }
    }
  }

  lemma {:induction false} HavingMeans(members: seq<Member>, index: bool, m: Member)
    requires m in Having(members, index)
    ensures m in members && IsIndex(m.key) == index
    decreases |members|
  {
    if members == [] {
    } else if m in Having(members[1..], index) {
      HavingMeans(members[1..], index, m);
    }
  }

  lemma {:induction false} HavingOccursNoMore(members: seq<Member>, index: bool, m: Member)
    ensures multiset(Having(members, index))[m] <= multiset(members)[m]
    decreases |members|
  {
    if members == [] {
    } else {
      HavingOccursNoMore(members[1..], index, m);
      HeadCounted(members);
      if IsIndex(members[0].key) == index {
        Counted(members[0], Having(members[1..], index));
        assert Having(members, index) == [members[0]] + Having(members[1..], index);
      } else {
        assert Having(members, index) == Having(members[1..], index);
      }
    }
  }

  lemma SameKeySameMember(members: seq<Member>, x: Member, y: Member)
    requires KeysDistinct(members) && x in members && y in members && x.key == y.key
    ensures x == y
  {
    var k :| 0 <= k < |members| && members[k] == x;
    var l :| 0 <= l < |members| && members[l] == y;
  }

  lemma NumberOrder()
    ensures StrictOrder(ByNumber())
  {
  }

  lemma SameNumberSameKey(a: string, b: string)
    requires IsIndex(a) && IsIndex(b) && ParseDecimal(a) == ParseDecimal(b)
    ensures a == b
  {
  }

  lemma TwoNumbersCompare(members: seq<Member>, x: Member, y: Member)
    requires KeysDistinct(members) && x in members && y in members && IsIndex(x.key) && IsIndex(y.key)
    ensures x == y || ByNumber()(x, y) || ByNumber()(y, x)
  {
    if ParseDecimal(x.key) == ParseDecimal(y.key) {
      SameNumberSameKey(x.key, y.key);
      SameKeySameMember(members, x, y);
    }
  }

  lemma HavingIsOnce(members: seq<Member>, index: bool, m: Member)
    requires KeysDistinct(members) && m in multiset(Having(members, index))
    ensures multiset(Having(members, index))[m] == 1 && m in members && IsIndex(m.key) == index
  {
    HavingMeans(members, index, m);
    HavingOccursNoMore(members, index, m);
    KeysOccurOnce(members, m);
  }

  lemma NumbersCompare(members: seq<Member>)
    requires KeysDistinct(members)
    ensures Comparable(Having(members, true), ByNumber())
  {
    var indexed := Having(members, true);
    forall m | m in multiset(indexed) ensures multiset(indexed)[m] == 1 {
      HavingIsOnce(members, true, m);
    }
    forall x, y | x in indexed && y in indexed ensures x == y || ByNumber()(x, y) || ByNumber()(y, x) {
      HavingMeans(members, true, x);
      HavingMeans(members, true, y);
      TwoNumbersCompare(members, x, y);
    }
  }

  /** The first `n` keys are index keys by number, the others are not and go by the string order. */
  ghost predicate Listed(members: seq<Member>, n: nat, less: Less<string>) {
    && n <= |members|
    && (forall i :: 0 <= i < |members| ==> (IsIndex(members[i].key) <==> i < n))
    && Sorted(members[..n], ByNumber()) && Sorted(members[n..], ByKey(less))
  }

  lemma SortedKeysDistinct(members: seq<Member>, less: Less<string>)
    requires StrictTotal(less) && Sorted(members, ByKey(less))
    ensures KeysDistinct(members)
  {
    forall i, j | 0 <= i < j < |members| ensures members[i].key != members[j].key {
      assert ByKey(less)(members[i], members[j]);
      assert !less(members[i].key, members[i].key);
    }
  }

  /**
    The form lists an object's index keys by number and after them the others in string order, so it is not in
    string order throughout: `9` comes before `10`.
   */
  lemma KeysAreListed(members: seq<Member>, less: Less<string>)
    requires StrictTotal(less) && KeysDistinct(members)
    ensures exists n: nat :: Listed(Arranged(members, less), n, less)
  {
    var sorted := Sort(members, ByKey(less));
    KeysCompare(members, less);
    SortSorts(members, ByKey(less));
    SortKeeps(members, ByKey(less));
    HavingKeepsOrder(sorted, true, ByKey(less));
    HavingKeepsOrder(sorted, false, ByKey(less));
    SortedKeysDistinct(sorted, less);
    NumberOrder();
    NumbersCompare(sorted);
    var indexed, others := Having(sorted, true), Having(sorted, false);
    SortSorts(indexed, ByNumber());
    SortKeeps(indexed, ByNumber());
    SameElements(Sort(indexed, ByNumber()), indexed);
    ArrangedKeeps(members, less);
    SameElements(Arranged(members, less), members);
    assert Arranged(members, less)[..|indexed|] == Sort(indexed, ByNumber());
    assert Arranged(members, less)[|indexed|..] == others;
    assert Listed(Arranged(members, less), |indexed|, less);
  }

  // ---------------------------------------------------------------------
  // When that is the string order
  // ---------------------------------------------------------------------

  /** An object lists `a` before `b` whatever their string order. */
  predicate ComesFirst(a: string, b: string) {
    IsIndex(a) && (!IsIndex(b) || ParseDecimal(a) < ParseDecimal(b))
  }

  /** The keys that come first by number come first as strings as well. */
  predicate NumbersFirstAsStrings(members: seq<Member>, less: Less<string>) {
    forall x, y :: x in members && y in members && ComesFirst(x.key, y.key) ==> less(x.key, y.key)
  }

  lemma ListedComesFirst(members: seq<Member>, n: nat, less: Less<string>, i: nat, j: nat)
    requires Listed(members, n, less) && i < |members| && j < |members| && ComesFirst(members[i].key, members[j].key)
    ensures i < j
  {
    if j < n {
      assert members[..n][i] == members[i] && members[..n][j] == members[j];
    }
  }

  lemma ListedPairSorted(members: seq<Member>, n: nat, less: Less<string>, i: nat, j: nat)
    requires Listed(members, n, less) && NumbersFirstAsStrings(members, less) && i < j < |members|
    ensures less(members[i].key, members[j].key)
  {
    if n <= i {
      assert members[n..][i - n] == members[i] && members[n..][j - n] == members[j];
    } else {
      if j < n {
        assert members[..n][i] == members[i] && members[..n][j] == members[j];
      }
      assert ComesFirst(members[i].key, members[j].key);
    }
  }

  lemma ListedSortedExactly(members: seq<Member>, n: nat, less: Less<string>)
    requires Listed(members, n, less)
    ensures Sorted(members, ByKey(less)) <==> NumbersFirstAsStrings(members, less)
  {
    if Sorted(members, ByKey(less)) {
      forall x, y | x in members && y in members && ComesFirst(x.key, y.key) ensures less(x.key, y.key) {
        var i :| 0 <= i < |members| && members[i] == x;
        var j :| 0 <= j < |members| && members[j] == y;
        ListedComesFirst(members, n, less, i, j);
      }
    } else if NumbersFirstAsStrings(members, less) {
      forall i, j | 0 <= i < j < |members| ensures ByKey(less)(members[i], members[j]) {
        ListedPairSorted(members, n, less, i, j);
      }
    }
  }

  lemma SameNumbersFirst(a: seq<Member>, b: seq<Member>, less: Less<string>)
    requires multiset(a) == multiset(b)
    ensures NumbersFirstAsStrings(a, less) <==> NumbersFirstAsStrings(b, less)
  {
    SameElements(a, b);
  }

  /**
    The form lists an object's keys in string order exactly when the index keys come first as strings, in the order of
    their numbers.
   */
  lemma StringOrderExactly(members: seq<Member>, less: Less<string>)
    requires StrictTotal(less) && KeysDistinct(members)
    ensures Sorted(Arranged(members, less), ByKey(less)) <==> NumbersFirstAsStrings(members, less)
  {
    KeysAreListed(members, less);
    var n: nat :| Listed(Arranged(members, less), n, less);
    ListedSortedExactly(Arranged(members, less), n, less);
    ArrangedKeeps(members, less);
    SameNumbersFirst(Arranged(members, less), members, less);
  }

  /** The dictionary order, by which JavaScript sorts strings of the basic plane. */
  predicate Earlier(a: string, b: string)
    decreases |a|
  {
    b != [] && (a == [] || a[0] < b[0] || (a[0] == b[0] && Earlier(a[1..], b[1..])))
  }

  function Dictionary(): Less<string> {
    (a: string, b: string) => Earlier(a, b)
  }

  lemma {:induction false} EarlierIrreflexive(a: string)
    ensures !Earlier(a, a)
    decreases |a|
  {
    if a == [] {
    } else {
      EarlierIrreflexive(a[1..]);
    }
  }

  lemma {:induction false} EarlierTransitive(a: string, b: string, c: string)
    requires Earlier(a, b) && Earlier(b, c)
    ensures Earlier(a, c)
    decreases |a|
  {
    if a == [] {
    } else if a[0] == b[0] == c[0] {
      EarlierTransitive(a[1..], b[1..], c[1..]);
    }
  }

  lemma {:induction false} EarlierTotal(a: string, b: string)
    requires a != b
    ensures Earlier(a, b) || Earlier(b, a)
    decreases |a|
  {
    if a == [] || b == [] {
    } else if a[0] == b[0] {
      assert a == [a[0]] + a[1..] && b == [b[0]] + b[1..];
      EarlierTotal(a[1..], b[1..]);
    }
  }

  lemma DictionaryIsStrictTotal()
    ensures StrictTotal(Dictionary())
  {
    forall a: string ensures !Dictionary()(a, a) {
      EarlierIrreflexive(a);
    }
    forall a: string, b: string, c: string | Dictionary()(a, b) && Dictionary()(b, c) ensures Dictionary()(a, c) {
      EarlierTransitive(a, b, c);
    }
    forall a: string, b: string | a != b ensures Dictionary()(a, b) || Dictionary()(b, a) {
      EarlierTotal(a, b);
    }
  }

  lemma HavingTwo(x: Member, y: Member, index: bool)
    requires IsIndex(x.key) && IsIndex(y.key)
    ensures Having([x, y], index) == if index then [x, y] else []
  {
    assert [x, y][1..] == [y] && [y][1..] == [];
    assert Having([y], index) == if index then [y] else [];
  }

  lemma SortTwo(x: Member, y: Member, less: Less<Member>)
    ensures Sort([x, y], less) == if less(y, x) then [y, x] else [x, y]
  {
    assert [x, y][1..] == [y] && [y][1..] == [];
    assert Sort([y], less) == [y];
    assert !less(y, x) ==> Insert(x, [y], less) == [x] + [y];
    assert less(y, x) ==> Insert(x, [y], less) == [y] + Insert(x, [], less);
  }

  /** Two index keys whose string order is not that of their numbers are listed by number. */
  lemma ListedByNumber(a: Member, b: Member, less: Less<string>)
    requires ComesFirst(a.key, b.key) && IsIndex(b.key) && less(b.key, a.key) && !less(a.key, b.key)
    ensures Arranged([b, a], less) == [a, b]
  {
    SortTwo(b, a, ByKey(less));
    HavingTwo(b, a, true);
    HavingTwo(b, a, false);
    SortTwo(b, a, ByNumber());
  }

  lemma DecimalNine()
    ensures IsIndex("9") && ParseDecimal("9") == 9
  {
    assert Decimal(9) == "9";
    ParseOfDecimal(9);
  }

  lemma DecimalTen()
    ensures IsIndex("10") && ParseDecimal("10") == 10
  {
    assert Decimal(1) == "1";
    assert Decimal(10) == Decimal(1) + "0";
    assert Decimal(10) == "10";
    ParseOfDecimal(10);
  }

  /** In dictionary order `10` comes before `9`; the form lists `9` first. */
  lemma NineIsListedBeforeTen(nine: Json, ten: Json)
    ensures var members := [Member("10", ten), Member("9", nine)];
      && Sorted(members, ByKey(Dictionary()))
      && Arranged(members, Dictionary()) == [Member("9", nine), Member("10", ten)]
      && !Sorted(Arranged(members, Dictionary()), ByKey(Dictionary()))
  {
    var a, b := Member("9", nine), Member("10", ten);
    DecimalNine();
    DecimalTen();
    ListedByNumber(a, b, Dictionary());
    assert !ByKey(Dictionary())([a, b][0], [a, b][1]);
  }
}
