/**
 Canonical JSON. The broker and the installation manifest each sort the members of every object by key;
 this module models both copies, shows they are one function, and that it decides equality of JSON
 values up to the order of object members (section 4 of RFC 8259).
 */
module CanonicalJson {
  import opened Collections

  /** Numbers keep their text; the text encoding of a value is taken as the value itself. */
  datatype Json =
    | Null
    | Bool(truth: bool)
    | Number(text: string)
    | Str(chars: string)
    | Array(items: seq<Json>)
    | Object(members: seq<Member>)

  datatype Member = Member(key: string, value: Json)

  // ---------------------------------------------------------------- key order

  predicate StringLeq(a: string, b: string) {
    if a == [] then true
    else if b == [] then false
    else if a[0] != b[0] then a[0] < b[0]
    else StringLeq(a[1..], b[1..])
  }

  lemma {:induction false} StringLeqTotal(a: string, b: string)
    ensures StringLeq(a, b) || StringLeq(b, a)
    ensures StringLeq(a, b) && StringLeq(b, a) ==> a == b
  {
    if a != [] && b != [] && a[0] == b[0] {
      StringLeqTotal(a[1..], b[1..]);
      assert a == [a[0]] + a[1..] && b == [b[0]] + b[1..];
    }
  }

  lemma {:induction false} StringLeqTransitive(a: string, b: string, c: string)
    requires StringLeq(a, b) && StringLeq(b, c)
    ensures StringLeq(a, c)
  {
    if a != [] && b != [] && c != [] && a[0] == b[0] == c[0] {
      StringLeqTransitive(a[1..], b[1..], c[1..]);
    }
  }

  predicate MemberLeq(a: Member, b: Member) {
    StringLeq(a.key, b.key)
  }

  lemma KeyOrders()
    ensures forall a, b :: StringLeq(a, b) || StringLeq(b, a)
    ensures forall a, b, c :: StringLeq(a, b) && StringLeq(b, c) ==> StringLeq(a, c)
    ensures forall a, b :: MemberLeq(a, b) || MemberLeq(b, a)
    ensures forall a, b, c :: MemberLeq(a, b) && MemberLeq(b, c) ==> MemberLeq(a, c)
  {
    forall a, b
      ensures StringLeq(a, b) || StringLeq(b, a)
    {
      StringLeqTotal(a, b);
    }
    forall a, b, c | StringLeq(a, b) && StringLeq(b, c)
      ensures StringLeq(a, c)
    {
      StringLeqTransitive(a, b, c);
    }
  }

  // ---------------------------------------------------------------- values

  /** A map holds every key once, at every level. */
  ghost predicate WellFormed(v: Json) {
    match v
    case Array(items) => forall i :: 0 <= i < |items| ==> WellFormed(items[i])
    case Object(members) =>
      && DistinctKeys(members)
      && forall i :: 0 <= i < |members| ==> WellFormed(members[i].value)
    case _ => true
  }

  ghost predicate DistinctKeys(members: seq<Member>) {
    forall i, j :: 0 <= i < j < |members| ==> members[i].key != members[j].key
  }

  /** Equality up to the order of object members, at every level. */
  ghost predicate Equivalent(a: Json, b: Json) {
    match a
    case Array(xs) =>
      b.Array? && |xs| == |b.items| && forall i :: 0 <= i < |xs| ==> Equivalent(xs[i], b.items[i])
    case Object(ms) =>
      && b.Object? && |ms| == |b.members|
      && (forall m :: m in ms ==> HasKey(b.members, m.key))
      && (forall i, j :: 0 <= i < |ms| && 0 <= j < |b.members| && ms[i].key == b.members[j].key ==>
            Equivalent(ms[i].value, b.members[j].value))
    case _ => a == b
  }

  // ---------------------------------------------------------------- the two copies

  lemma SortedEntriesAreMembers(members: seq<Member>)
    ensures forall e :: e in Sort(MemberLeq, members) <==> e in members
    ensures |Sort(MemberLeq, members)| == |members|
  {
    SortPermutes(MemberLeq, members);
    MultisetToSet(Sort(MemberLeq, members), members);
    assert forall e :: e in Sort(MemberLeq, members) <==> e in ToSet(members);
  }

  /** The broker's copy: sort the entries by key, then canonicalise their values. */
  function BrokerSort(v: Json): Json
    decreases v, 1, 0
  {
    match v
    case Array(items) => Array(BrokerSortItems(items))
    case Object(members) =>
      SortedEntriesAreMembers(members);
      Object(BrokerSortEntries(Sort(MemberLeq, members), v))
    case _ => v
  }

  function BrokerSortItems(items: seq<Json>): seq<Json>
    decreases items, 0, 0
  {
    if items == [] then [] else [BrokerSort(items[0])] + BrokerSortItems(items[1..])
  }

  ghost predicate Drawn(entries: seq<Member>, whole: Json) {
    whole.Object? && forall e :: e in entries ==> e in whole.members
  }

  lemma DrawnIsSmaller(e: Member, whole: Json)
    requires whole.Object? && e in whole.members
    ensures e.value < whole
  {
    var i :| 0 <= i < |whole.members| && whole.members[i] == e;
    assert whole.members[i].value < whole;
  }

  function BrokerSortEntries(entries: seq<Member>, ghost whole: Json): seq<Member>
    requires Drawn(entries, whole)
    decreases whole, 0, |entries|
  {
    if entries == [] then []
    else
      DrawnIsSmaller(entries[0], whole);
      [Member(entries[0].key, BrokerSort(entries[0].value))] + BrokerSortEntries(entries[1..], whole)
  }

  ghost predicate HasKey(members: seq<Member>, key: string) {
    exists m :: m in members && m.key == key
  }

  ghost predicate HasKeys(members: seq<Member>, keys: seq<string>) {
    forall k :: k in keys ==> HasKey(members, k)
  }

  /** The value under a key; the first one, should a key repeat. */
  function Lookup(members: seq<Member>, key: string): (v: Json)
    requires HasKey(members, key)
    ensures Member(key, v) in members
  {
    if members[0].key == key then
      assert members[0] == Member(key, members[0].value);
      members[0].value
    else
      Lookup(members[1..], key)
  }

  function Keys(members: seq<Member>): (ks: seq<string>)
    ensures |ks| == |members| && forall i :: 0 <= i < |members| ==> ks[i] == members[i].key
  {
    seq(|members|, i requires 0 <= i < |members| => members[i].key)
  }

  lemma KeysAreKeys(members: seq<Member>)
    ensures forall k :: k in Keys(members) <==> HasKey(members, k)
  {
    forall k
      ensures k in Keys(members) <==> HasKey(members, k)
    {
      if k in Keys(members) {
        var i :| 0 <= i < |members| && Keys(members)[i] == k;
        assert members[i] in members && members[i].key == k;
      }
      if HasKey(members, k) {
        var m :| m in members && m.key == k;
        var i :| 0 <= i < |members| && members[i] == m;
        assert Keys(members)[i] == k;
      }
    }
  }

  lemma SortedKeysAreKeys(members: seq<Member>)
    ensures HasKeys(members, Sort(StringLeq, Keys(members)))
  {
    var ks := Keys(members);
    KeysAreKeys(members);
    SortPermutes(StringLeq, ks);
    MultisetToSet(Sort(StringLeq, ks), ks);
    assert forall k :: k in Sort(StringLeq, ks) ==> k in ToSet(ks);
  }

  /** The manifest's copy: sort the keys, then look every value up again. */
  function ManifestSort(v: Json): Json
    decreases v, 1, 0
  {
    match v
    case Array(items) => Array(ManifestSortItems(items))
    case Object(members) =>
      SortedKeysAreKeys(members);
      Object(ManifestSortKeys(Sort(StringLeq, Keys(members)), v))
    case _ => v
  }

  function ManifestSortItems(items: seq<Json>): seq<Json>
    decreases items, 0, 0
  {
    if items == [] then [] else [ManifestSort(items[0])] + ManifestSortItems(items[1..])
  }

  function ManifestSortKeys(keys: seq<string>, whole: Json): seq<Member>
    requires whole.Object? && HasKeys(whole.members, keys)
    decreases whole, 0, |keys|
  {
    if keys == [] then []
    else
      assert keys[0] in keys;
      var value := Lookup(whole.members, keys[0]);
      DrawnIsSmaller(Member(keys[0], value), whole);
      [Member(keys[0], ManifestSort(value))] + ManifestSortKeys(keys[1..], whole)
  }

  // ---------------------------------------------------------------- element-wise views

  lemma {:induction false} BrokerItems(items: seq<Json>)
    ensures |BrokerSortItems(items)| == |items|
    ensures forall i :: 0 <= i < |items| ==> BrokerSortItems(items)[i] == BrokerSort(items[i])
  {
    if items != [] {
      BrokerItems(items[1..]);
    }
  }

  lemma {:induction false} BrokerEntries(entries: seq<Member>, whole: Json)
    requires Drawn(entries, whole)
    ensures |BrokerSortEntries(entries, whole)| == |entries|
    ensures forall i :: 0 <= i < |entries| ==>
              BrokerSortEntries(entries, whole)[i] == Member(entries[i].key, BrokerSort(entries[i].value))
  {
    if entries != [] {
      BrokerEntries(entries[1..], whole);
    }
  }

  lemma {:induction false} ManifestKeys(keys: seq<string>, whole: Json)
    requires whole.Object? && HasKeys(whole.members, keys)
    ensures |ManifestSortKeys(keys, whole)| == |keys|
    ensures forall i :: 0 <= i < |keys| ==>
              (&& HasKey(whole.members, keys[i])
               && ManifestSortKeys(keys, whole)[i] == Member(keys[i], ManifestSort(Lookup(whole.members, keys[i]))))
  {
    if keys != [] {
      assert keys[0] in keys;
      ManifestKeys(keys[1..], whole);
    }
  }

  // ---------------------------------------------------------------- sorted objects

  /** With distinct keys, a member is determined by its key. */
  lemma SameKeySameMember(members: seq<Member>, x: Member, y: Member)
    requires DistinctKeys(members) && x in members && y in members && x.key == y.key
    ensures x == y
  {
    var i :| 0 <= i < |members| && members[i] == x;
    var j :| 0 <= j < |members| && members[j] == y;
  }

  lemma DistinctKeysMeans(members: seq<Member>)
    requires DistinctKeys(members)
    ensures Tieless(MemberLeq, members) && Distinct(members) && Distinct(Keys(members))
  {
    forall x, y | x in members && y in members && MemberLeq(x, y) && MemberLeq(y, x)
      ensures x == y
    {
      StringLeqTotal(x.key, y.key);
      SameKeySameMember(members, x, y);
    }
  }

  lemma PermutedKeysDistinct(a: seq<Member>, b: seq<Member>)
    requires DistinctKeys(a) && multiset(a) == multiset(b)
    ensures DistinctKeys(b)
  {
    DistinctKeysMeans(a);
    PermutationDistinct(a, b);
    MultisetToSet(a, b);
    forall i, j | 0 <= i < j < |b|
      ensures b[i].key != b[j].key
    {
      assert b[i] in ToSet(a) && b[j] in ToSet(a);
      if b[i].key == b[j].key {
        SameKeySameMember(a, b[i], b[j]);
      }
    }
  }

  /** Everything about the sorted members of a well-formed object. */
  lemma SortedMembers(members: seq<Member>)
    requires DistinctKeys(members)
    ensures var sorted := Sort(MemberLeq, members);
            && DistinctKeys(sorted) && SortedBy(MemberLeq, sorted)
            && |sorted| == |members| && (forall e :: e in sorted <==> e in members)
  {
    SortedEntriesAreMembers(members);
    KeyOrders();
    SortSorted(MemberLeq, members);
    SortPermutes(MemberLeq, members);
    PermutedKeysDistinct(members, Sort(MemberLeq, members));
  }

  lemma StringTieless(ks: seq<string>)
    ensures Tieless(StringLeq, ks)
  {
    forall x, y | x in ks && y in ks && StringLeq(x, y) && StringLeq(y, x)
      ensures x == y
    {
      StringLeqTotal(x, y);
    }
  }

  /** Duplicate-free lists with the same entries sort to the same list. */
  lemma SortedFromSet(a: seq<string>, b: seq<string>)
    requires Distinct(a) && Distinct(b) && (forall k :: k in a <==> k in b)
    requires SortedBy(StringLeq, a) && SortedBy(StringLeq, b)
    ensures a == b
  {
    DistinctByCount(a);
    DistinctByCount(b);
    forall k
      ensures multiset(a)[k] == multiset(b)[k]
    {
      assert k in a <==> k in multiset(a);
      assert k in b <==> k in multiset(b);
    }
    assert multiset(a) == multiset(b);
    StringTieless(a);
    StringTieless(b);
    SortedUnique(StringLeq, a, b);
  }

  /** Sorting the entries and reading their keys is sorting the keys. */
  lemma SortedKeysOfSortedEntries(members: seq<Member>)
    requires DistinctKeys(members)
    ensures Keys(Sort(MemberLeq, members)) == Sort(StringLeq, Keys(members))
  {
    var sorted, keys := Sort(MemberLeq, members), Sort(StringLeq, Keys(members));
    SortedMembers(members);
    DistinctKeysMeans(members);
    DistinctKeysMeans(sorted);
    KeyOrders();
    SortSorted(StringLeq, Keys(members));
    SortPermutes(StringLeq, Keys(members));
    PermutationDistinct(Keys(members), keys);
    MultisetToSet(keys, Keys(members));
    KeysAreKeys(members);
    KeysAreKeys(sorted);
    forall k
      ensures k in Keys(sorted) <==> k in keys
    {
      assert k in keys <==> k in ToSet(keys);
      assert HasKey(sorted, k) <==> HasKey(members, k);
    }
    SortedFromSet(Keys(sorted), keys);
  }

  // ---------------------------------------------------------------- theorems

  /** On well-formed values the two copies compute the same thing. */
  lemma {:induction false} CopiesAgree(v: Json)
    requires WellFormed(v)
    ensures BrokerSort(v) == ManifestSort(v)
    decreases v, 1
  {
    match v
    case Array(items) => ItemCopiesAgree(items);
    case Object(members) =>
      var sorted := Sort(MemberLeq, members);
      SortedMembers(members);
      SortedKeysAreKeys(members);
      SortedKeysOfSortedEntries(members);
      BrokerEntries(sorted, v);
      ManifestKeys(Keys(sorted), v);
      forall i | 0 <= i < |sorted|
        ensures BrokerSortEntries(sorted, v)[i] == ManifestSortKeys(Keys(sorted), v)[i]
      {
        assert sorted[i] in members && HasKey(members, Keys(sorted)[i]);
        var value := Lookup(members, sorted[i].key);
        SameKeySameMember(members, sorted[i], Member(sorted[i].key, value));
        DrawnIsSmaller(sorted[i], v);
        MemberWellFormed(members, sorted[i]);
        CopiesAgree(sorted[i].value);
      }
    case _ =>
  }

  lemma MemberWellFormed(members: seq<Member>, m: Member)
    requires WellFormed(Object(members)) && m in members
    ensures WellFormed(m.value)
  {
    var i :| 0 <= i < |members| && members[i] == m;
  }

  lemma {:induction false} ItemCopiesAgree(items: seq<Json>)
    requires forall i :: 0 <= i < |items| ==> WellFormed(items[i])
    ensures BrokerSortItems(items) == ManifestSortItems(items)
    decreases items, 0
  {
    if items != [] {
      CopiesAgree(items[0]);
      ItemCopiesAgree(items[1..]);
    }
  }

  /** Two objects with the same keys have those keys in the same places once sorted. */
  lemma SameSortedKeys(a: seq<Member>, b: seq<Member>)
    requires DistinctKeys(a) && DistinctKeys(b) && |a| == |b|
    requires forall m :: m in a ==> HasKey(b, m.key)
    ensures Keys(Sort(MemberLeq, a)) == Keys(Sort(MemberLeq, b))
  {
    KeysAreKeys(a);
    KeysAreKeys(b);
    DistinctKeysMeans(a);
    DistinctKeysMeans(b);
    DistinctLength(Keys(a));
    DistinctLength(Keys(b));
    forall k | k in Keys(a)
      ensures k in Keys(b)
    {
      assert HasKey(a, k);
    }
    SubsetSize(ToSet(Keys(a)), ToSet(Keys(b)));
    assert forall k :: k in Keys(a) <==> k in ToSet(Keys(a));
    assert forall k :: k in Keys(b) <==> k in ToSet(Keys(b));
    SortedKeysOfSortedEntries(a);
    SortedKeysOfSortedEntries(b);
    SortsAlike(Keys(a), Keys(b));
  }

  lemma SortsAlike(a: seq<string>, b: seq<string>)
    requires Distinct(a) && Distinct(b) && (forall k :: k in a <==> k in b)
    ensures Sort(StringLeq, a) == Sort(StringLeq, b)
  {
    var sa, sb := Sort(StringLeq, a), Sort(StringLeq, b);
    KeyOrders();
    SortSorted(StringLeq, a);
    SortSorted(StringLeq, b);
    SortPermutes(StringLeq, a);
    SortPermutes(StringLeq, b);
    PermutationDistinct(a, sa);
    PermutationDistinct(b, sb);
    MultisetToSet(sa, a);
    MultisetToSet(sb, b);
    forall k
      ensures k in sa <==> k in sb
    {
      assert (k in sa <==> k in ToSet(sa)) && (k in sb <==> k in ToSet(sb));
    }
    SortedFromSet(sa, sb);
  }

  /** Sorting decides equality up to member order: the image is a canonical form. */
  lemma {:induction false} SameImageExactlyWhenEquivalent(a: Json, b: Json)
    requires WellFormed(a) && WellFormed(b)
    ensures BrokerSort(a) == BrokerSort(b) <==> Equivalent(a, b)
    decreases a
  {
    if a.Array? && b.Array? {
      BrokerItems(a.items);
      BrokerItems(b.items);
      if |a.items| == |b.items| {
        forall i | 0 <= i < |a.items|
          ensures BrokerSortItems(a.items)[i] == BrokerSortItems(b.items)[i] <==> Equivalent(a.items[i], b.items[i])
        {
          SameImageExactlyWhenEquivalent(a.items[i], b.items[i]);
        }
      }
    } else if a.Object? && b.Object? {
      if Equivalent(a, b) {
        EquivalentObjectsShareAnImage(a, b);
      }
      if BrokerSort(a) == BrokerSort(b) {
        ObjectsWithOneImageAreEquivalent(a, b);
      }
    }
  }

  lemma {:induction false} EquivalentObjectsShareAnImage(a: Json, b: Json)
    requires WellFormed(a) && WellFormed(b) && a.Object? && b.Object? && Equivalent(a, b)
    ensures BrokerSort(a) == BrokerSort(b)
    decreases a, 0
  {
    var sa, sb := Sort(MemberLeq, a.members), Sort(MemberLeq, b.members);
    SortedMembers(a.members);
    SortedMembers(b.members);
    forall m | m in a.members
      ensures HasKey(b.members, m.key)
    {
      assert HasKey(b.members, m.key);
    }
    SameSortedKeys(a.members, b.members);
    BrokerEntries(sa, a);
    BrokerEntries(sb, b);
    forall i | 0 <= i < |sa|
      ensures BrokerSortEntries(sa, a)[i] == BrokerSortEntries(sb, b)[i]
    {
      assert Keys(sa)[i] == Keys(sb)[i];
      assert sa[i] in a.members && sb[i] in b.members;
      var j :| 0 <= j < |a.members| && a.members[j] == sa[i];
      var k :| 0 <= k < |b.members| && b.members[k] == sb[i];
      assert Equivalent(a.members[j].value, b.members[k].value);
      SameImageExactlyWhenEquivalent(a.members[j].value, b.members[k].value);
    }
  }

  lemma {:induction false} ObjectsWithOneImageAreEquivalent(a: Json, b: Json)
    requires WellFormed(a) && WellFormed(b) && a.Object? && b.Object? && BrokerSort(a) == BrokerSort(b)
    ensures Equivalent(a, b)
    decreases a, 0
  {
    var sa, sb := Sort(MemberLeq, a.members), Sort(MemberLeq, b.members);
    SortedMembers(a.members);
    SortedMembers(b.members);
    BrokerEntries(sa, a);
    BrokerEntries(sb, b);
    var image := BrokerSortEntries(sa, a);
    assert image == BrokerSortEntries(sb, b);
    forall i | 0 <= i < |a.members|
      ensures HasKey(b.members, a.members[i].key)
      ensures forall j :: 0 <= j < |b.members| && a.members[i].key == b.members[j].key ==>
                Equivalent(a.members[i].value, b.members[j].value)
    {
      assert a.members[i] in sa;
      var p :| 0 <= p < |sa| && sa[p] == a.members[i];
      assert image[p].key == sb[p].key && sb[p] in b.members;
      var q :| 0 <= q < |b.members| && b.members[q] == sb[p];
      assert BrokerSort(a.members[i].value) == image[p].value == BrokerSort(b.members[q].value);
      SameImageExactlyWhenEquivalent(a.members[i].value, b.members[q].value);
    }
  }

  /** A value whose objects all list their members in strictly increasing key order. */
  ghost predicate Canonical(v: Json) {
    match v
    case Array(items) => forall i :: 0 <= i < |items| ==> Canonical(items[i])
    case Object(members) =>
      && DistinctKeys(members) && SortedBy(MemberLeq, members)
      && forall i :: 0 <= i < |members| ==> Canonical(members[i].value)
    case _ => true
  }

  /** The image is in canonical form and equal to the input up to member order. */
  lemma {:induction false} ImageIsCanonical(v: Json)
    requires WellFormed(v)
    ensures Canonical(BrokerSort(v))
    decreases v
  {
    match v
    case Array(items) =>
      BrokerItems(items);
      forall i | 0 <= i < |items|
        ensures Canonical(BrokerSortItems(items)[i])
      {
        ImageIsCanonical(items[i]);
      }
    case Object(members) =>
      var sorted := Sort(MemberLeq, members);
      SortedMembers(members);
      BrokerEntries(sorted, v);
      forall i | 0 <= i < |sorted|
        ensures Canonical(BrokerSortEntries(sorted, v)[i].value)
      {
        assert sorted[i] in members;
        DrawnIsSmaller(sorted[i], v);
        MemberWellFormed(members, sorted[i]);
        ImageIsCanonical(sorted[i].value);
      }
    case _ =>
  }

  lemma {:induction false} CanonicalIsFixed(v: Json)
    requires Canonical(v)
    ensures BrokerSort(v) == v
    decreases v
  {
    match v
    case Array(items) =>
      BrokerItems(items);
      forall i | 0 <= i < |items|
        ensures BrokerSortItems(items)[i] == items[i]
      {
        CanonicalIsFixed(items[i]);
      }
    case Object(members) =>
      SortedMembers(members);
      DistinctKeysMeans(members);
      DistinctKeysMeans(Sort(MemberLeq, members));
      SortPermutes(MemberLeq, members);
      SortedUnique(MemberLeq, Sort(MemberLeq, members), members);
      BrokerEntries(members, v);
      forall i | 0 <= i < |members|
        ensures BrokerSortEntries(members, v)[i] == members[i]
      {
        CanonicalIsFixed(members[i].value);
      }
    case _ =>
  }

  lemma {:induction false} CanonicalIsWellFormed(v: Json)
    requires Canonical(v)
    ensures WellFormed(v)
  {
    match v
    case Array(items) =>
      forall i | 0 <= i < |items|
        ensures WellFormed(items[i])
      {
        CanonicalIsWellFormed(items[i]);
      }
    case Object(members) =>
      forall i | 0 <= i < |members|
        ensures WellFormed(members[i].value)
      {
        CanonicalIsWellFormed(members[i].value);
      }
    case _ =>
  }

  /** Sorting twice is sorting once, and changes nothing but the order of members. */
  lemma Idempotent(v: Json)
    requires WellFormed(v)
    ensures BrokerSort(BrokerSort(v)) == BrokerSort(v)
    ensures Equivalent(BrokerSort(v), v)
  {
    ImageIsCanonical(v);
    CanonicalIsFixed(BrokerSort(v));
    CanonicalIsWellFormed(BrokerSort(v));
    SameImageExactlyWhenEquivalent(BrokerSort(v), v);
  }

  // ---------------------------------------------------------------- what is hashed, what is signed

  datatype Envelope = Envelope(
    transactionId: string, stepId: string, operationVersionId: string, serverNonce: string, request: Json)

  function Hashed(e: Envelope): Json {
    Object([
      Member("operationVersionId", Str(e.operationVersionId)),
      Member("request", e.request),
      Member("stepId", Str(e.stepId)),
      Member("transactionId", Str(e.transactionId))])
  }

  function Signed(e: Envelope): Json {
    Object([
      Member("operationVersionId", Str(e.operationVersionId)),
      Member("request", e.request),
      Member("serverNonce", Str(e.serverNonce)),
      Member("stepId", Str(e.stepId)),
      Member("transactionId", Str(e.transactionId))])
  }

  /** What `hash_request` digests: everything but the session's nonce. */
  function HashDocument(e: Envelope): Json {
    BrokerSort(Hashed(e))
  }

  /** What the session key signs. */
  function SignedDocument(e: Envelope): Json {
    BrokerSort(Signed(e))
  }

  /** The same operation on the same request, up to the order of the request's members. */
  ghost predicate SameRequest(a: Envelope, b: Envelope) {
    && a.transactionId == b.transactionId && a.stepId == b.stepId
    && a.operationVersionId == b.operationVersionId
    && Equivalent(a.request, b.request)
  }

  lemma DocumentsAreWellFormed(e: Envelope)
    requires WellFormed(e.request)
    ensures WellFormed(Hashed(e)) && WellFormed(Signed(e))
  {
    KeysDiffer();
  }

  lemma KeysDiffer()
    ensures Distinct(["operationVersionId", "request", "serverNonce", "stepId", "transactionId"])
  {
    var keys := ["operationVersionId", "request", "serverNonce", "stepId", "transactionId"];
    assert keys[0][0] == 'o' && keys[1][0] == 'r' && keys[2][1] == 'e' && keys[3][1] == 't' && keys[4][0] == 't';
  }

  /** Objects listing the same keys in the same places are equivalent when they are place by place. */
  lemma AlignedObjects(a: Json, b: Json)
    requires a.Object? && b.Object? && DistinctKeys(a.members) && |a.members| == |b.members|
    requires forall i :: 0 <= i < |a.members| ==> a.members[i].key == b.members[i].key
    requires forall i :: 0 <= i < |a.members| ==> Equivalent(a.members[i].value, b.members[i].value)
    ensures Equivalent(a, b)
  {
    forall m | m in a.members
      ensures HasKey(b.members, m.key)
    {
      var i :| 0 <= i < |a.members| && a.members[i] == m;
      assert b.members[i] in b.members && b.members[i].key == m.key;
    }
    forall i, j | 0 <= i < |a.members| && 0 <= j < |b.members| && a.members[i].key == b.members[j].key
      ensures i == j
    {
      assert b.members[j].key == a.members[j].key;
    }
  }

  lemma HashInputsEqualExactlyWhen(a: Envelope, b: Envelope)
    requires WellFormed(a.request) && WellFormed(b.request)
    ensures HashDocument(a) == HashDocument(b) <==> SameRequest(a, b)
  {
    DocumentsAreWellFormed(a);
    DocumentsAreWellFormed(b);
    SameImageExactlyWhenEquivalent(Hashed(a), Hashed(b));
    var x, y := Hashed(a).members, Hashed(b).members;
    if SameRequest(a, b) {
      AlignedObjects(Hashed(a), Hashed(b));
    }
    if Equivalent(Hashed(a), Hashed(b)) {
      assert x[0].key == y[0].key && x[1].key == y[1].key && x[2].key == y[2].key && x[3].key == y[3].key;
    }
  }

  /** Four members in the order of their keys, the request as given. */
  function Written(e: Envelope, request: Json): Json {
    Object([
      Member("operationVersionId", Str(e.operationVersionId)), Member("request", request),
      Member("stepId", Str(e.stepId)), Member("transactionId", Str(e.transactionId))])
  }

  lemma WrittenIsCanonical(e: Envelope, request: Json)
    requires Canonical(request)
    ensures Canonical(Written(e, request))
  {
    KeysDiffer();
    var keys := ["operationVersionId", "request", "stepId", "transactionId"];
    assert StringLeq(keys[0], keys[1]) && StringLeq(keys[1], keys[2]) && StringLeq(keys[2], keys[3]);
    KeyOrders();
    var members := Written(e, request).members;
    assert forall i :: 0 <= i < 4 ==> members[i].key == keys[i];
  }

  /** The digested document as it is written: four members in the order of their keys, the request sorted throughout. */
  lemma HashDocumentIs(e: Envelope)
    requires WellFormed(e.request)
    ensures HashDocument(e) == Written(e, BrokerSort(e.request))
  {
    var written := Written(e, BrokerSort(e.request));
    ImageIsCanonical(e.request);
    Idempotent(e.request);
    DocumentsAreWellFormed(e);
    WrittenIsCanonical(e, BrokerSort(e.request));
    CanonicalIsWellFormed(written);
    AlignedObjects(written, Hashed(e));
    SameImageExactlyWhenEquivalent(written, Hashed(e));
    CanonicalIsFixed(written);
  }

  lemma EquivalentAtEachKey(a: Json, b: Json, n: nat)
    requires a.Object? && b.Object? && |a.members| == |b.members| == n && Equivalent(a, b)
    requires forall i :: 0 <= i < n ==> a.members[i].key == b.members[i].key
    ensures forall i :: 0 <= i < n ==> Equivalent(a.members[i].value, b.members[i].value)
  {
    forall i | 0 <= i < n
      ensures Equivalent(a.members[i].value, b.members[i].value)
    {
      assert a.members[i].key == b.members[i].key;
    }
  }

  lemma SignedMembers(e: Envelope)
    ensures var m := Signed(e).members;
            && |m| == 5
            && m[0] == Member("operationVersionId", Str(e.operationVersionId)) && m[1] == Member("request", e.request)
            && m[2] == Member("serverNonce", Str(e.serverNonce)) && m[3] == Member("stepId", Str(e.stepId))
            && m[4] == Member("transactionId", Str(e.transactionId))
  {
  }

  lemma SignedAlike(a: Envelope, b: Envelope)
    requires WellFormed(Signed(a)) && a.serverNonce == b.serverNonce && SameRequest(a, b)
    ensures Equivalent(Signed(a), Signed(b))
  {
    var x, y := Signed(a), Signed(b);
    SignedMembers(a);
    SignedMembers(b);
    forall i | 0 <= i < 5
      ensures x.members[i].key == y.members[i].key && Equivalent(x.members[i].value, y.members[i].value)
    {
      if i == 0 {
      } else if i == 1 {
      } else if i == 2 {
      } else if i == 3 {
      } else {
        assert i == 4;
      }
    }
    AlignedObjects(x, y);
  }

  lemma SignedApart(a: Envelope, b: Envelope, x: seq<Member>, y: seq<Member>)
    requires x == Signed(a).members && y == Signed(b).members
    requires forall i :: 0 <= i < 5 ==> Equivalent(x[i].value, y[i].value)
    ensures a.serverNonce == b.serverNonce && SameRequest(a, b)
  {
    assert Equivalent(x[0].value, y[0].value) && Equivalent(x[1].value, y[1].value);
    assert Equivalent(x[2].value, y[2].value) && Equivalent(x[3].value, y[3].value);
    assert Equivalent(x[4].value, y[4].value);
  }

  lemma SignedKeysAlign(a: Envelope, b: Envelope)
    ensures |Signed(a).members| == |Signed(b).members| == 5
    ensures forall i :: 0 <= i < 5 ==> Signed(a).members[i].key == Signed(b).members[i].key
  {
    SignedMembers(a);
    SignedMembers(b);
  }

  /** What is signed covers everything: the version, the step, the transaction, the nonce and the whole request. */
  lemma SignedInputsEqualExactlyWhen(a: Envelope, b: Envelope)
    requires WellFormed(a.request) && WellFormed(b.request)
    ensures SignedDocument(a) == SignedDocument(b) <==> a.serverNonce == b.serverNonce && SameRequest(a, b)
  {
    DocumentsAreWellFormed(a);
    DocumentsAreWellFormed(b);
    SameImageExactlyWhenEquivalent(Signed(a), Signed(b));
    if a.serverNonce == b.serverNonce && SameRequest(a, b) {
      SignedAlike(a, b);
    }
    if Equivalent(Signed(a), Signed(b)) {
      SignedKeysAlign(a, b);
      EquivalentAtEachKey(Signed(a), Signed(b), 5);
      SignedApart(a, b, Signed(a).members, Signed(b).members);
    }
  }

  /** Signing the same request for another session changes what is signed, never what is hashed. */
  lemma ResigningKeepsTheHash(e: Envelope, otherNonce: string)
    requires WellFormed(e.request)
    ensures var other := e.(serverNonce := otherNonce);
            && HashDocument(other) == HashDocument(e)
            && (SignedDocument(other) == SignedDocument(e) <==> otherNonce == e.serverNonce)
  {
    var other := e.(serverNonce := otherNonce);
    DocumentsAreWellFormed(e);
    DocumentsAreWellFormed(other);
    SameImageExactlyWhenEquivalent(Signed(e), Signed(other));
    assert Signed(e).members[2].key == Signed(other).members[2].key;
  }
}
