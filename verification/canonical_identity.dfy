/**
  What the canonical text is for: two values have the same text exactly when they are the
  same JSON value, so a digest of the text identifies the value.
*/
module CanonicalIdentity {
  import opened Basics
  import opened JsonText
  import opened CanonicalJson
  import opened JsonReader

  // ---------------------------------------------------------------- the key order is total

  lemma {:induction false} LessTotal(a: Text, b: Text)
    ensures a == b || Less(a, b) || Less(b, a)
    ensures !(Less(a, b) && Less(b, a)) && !Less(a, a)
    decreases |a|
  {
    if a != [] {
      LessTotal(a[1..], a[1..]);
      if b != [] {
        LessTotal(a[1..], b[1..]);
        assert a == [a[0]] + a[1..] && b == [b[0]] + b[1..];
      }
    }
  }

  lemma {:induction false} LessTransitive(a: Text, b: Text, c: Text)
    requires Less(a, b) && Less(b, c)
    ensures Less(a, c)
    decreases |a|
  {
    if a != [] && a[0] == b[0] && b[0] == c[0] {
      LessTransitive(a[1..], b[1..], c[1..]);
    }
  }

  // ---------------------------------------------------------------- sorting

  predicate Sorted<T>(ms: seq<Member<T>>) {
    forall i, j :: 0 <= i < j < |ms| ==> Less(ms[i].key, ms[j].key)
  }

  ghost predicate SameMembers<T>(a: seq<Member<T>>, b: seq<Member<T>>) {
    |a| == |b| && (forall i :: 0 <= i < |a| ==> a[i] in b) && (forall i :: 0 <= i < |b| ==> b[i] in a)
  }

  lemma {:induction false} InsertMembers<T>(m: Member<T>, s: seq<Member<T>>)
    ensures SameMembers(Insert(m, s), [m] + s)
    decreases |s|
  {
    hide Less;
    if s != [] && Less(s[0].key, m.key) {
      InsertMembers(m, s[1..]);
      var rest := Insert(m, s[1..]);
      assert s == [s[0]] + s[1..];
      forall i | 0 <= i < |s| + 1 ensures Insert(m, s)[i] in [m] + s && ([m] + s)[i] in Insert(m, s) {
        if i > 0 { assert rest[i - 1] in [m] + s[1..]; }
        if i > 1 { assert ([m] + s)[i] == ([m] + s[1..])[i - 1]; }
        assert m == ([m] + s[1..])[0];
        assert Insert(m, s)[0] == s[0];
      }
    }
  }

  lemma {:induction false} InsertSorted<T>(m: Member<T>, s: seq<Member<T>>)
    requires Sorted(s) && forall i :: 0 <= i < |s| ==> s[i].key != m.key
    ensures Sorted(Insert(m, s))
    decreases |s|
  {
    hide Less;
    if s != [] && Less(s[0].key, m.key) {
      InsertSorted(m, s[1..]);
      InsertMembers(m, s[1..]);
      var rest := Insert(m, s[1..]);
      forall j | 0 <= j < |rest| ensures Less(s[0].key, rest[j].key) {
        assert rest[j] in [m] + s[1..];
      }
    } else if s != [] {
      LessTotal(s[0].key, m.key);
      forall j | 0 <= j < |s| ensures Less(m.key, s[j].key) {
        if j > 0 { LessTransitive(m.key, s[0].key, s[j].key); }
      }
    }
  }

  lemma SameMembersTrans<T>(a: seq<Member<T>>, b: seq<Member<T>>, c: seq<Member<T>>)
    requires SameMembers(a, b) && SameMembers(b, c)
    ensures SameMembers(a, c) && SameMembers(c, a)
  {
  }

  lemma SameMembersCons<T>(m: Member<T>, a: seq<Member<T>>, b: seq<Member<T>>)
    requires SameMembers(a, b)
    ensures SameMembers([m] + a, [m] + b)
  {
    forall i | 0 <= i < |a| + 1 ensures ([m] + a)[i] in [m] + b && ([m] + b)[i] in [m] + a {
      if i > 0 { assert a[i - 1] in b && b[i - 1] in a; }
    }
  }

  lemma {:induction false} SortSorted<T>(ms: seq<Member<T>>)
    requires DistinctKeys(ms)
    ensures Sorted(SortByKey(ms)) && SameMembers(SortByKey(ms), ms)
    decreases |ms|
  {
    if ms != [] {
      hide Less, Insert, Sorted, SameMembers;
      SortSorted(ms[1..]);
      var rest := SortByKey(ms[1..]);
      assert ms == [ms[0]] + ms[1..];
      KeysApart(ms[0], rest, ms[1..]);
      InsertSorted(ms[0], rest);
      InsertMembers(ms[0], rest);
      SameMembersCons(ms[0], rest, ms[1..]);
      SameMembersTrans(Insert(ms[0], rest), [ms[0]] + rest, ms);
    }
  }

  lemma KeysApart<T>(m: Member<T>, a: seq<Member<T>>, b: seq<Member<T>>)
    requires SameMembers(a, b) && forall i :: 0 <= i < |b| ==> b[i].key != m.key
    ensures forall i :: 0 <= i < |a| ==> a[i].key != m.key
  {
    forall i | 0 <= i < |a| ensures a[i].key != m.key {
      assert a[i] in b;
    }
  }

  /** A set of members has one sorted arrangement. */
  lemma {:induction false} SortedUnique<T>(a: seq<Member<T>>, b: seq<Member<T>>)
    requires Sorted(a) && Sorted(b) && SameMembers(a, b)
    ensures a == b
    decreases |a|
  {
    hide Less;
    if a != [] {
      SameHead(a, b);
      SameRest(a, b);
      SortedUnique(a[1..], b[1..]);
      assert a == [a[0]] + a[1..] && b == [b[0]] + b[1..];
    }
  }

  lemma SameHead<T>(a: seq<Member<T>>, b: seq<Member<T>>)
    requires Sorted(a) && Sorted(b) && SameMembers(a, b) && a != []
    ensures a[0] == b[0]
  {
    hide Less;
    assert a[0] in b && b[0] in a;
    var j :| 0 <= j < |b| && b[j] == a[0];
    var i :| 0 <= i < |a| && a[i] == b[0];
    LessTotal(a[0].key, b[0].key);
  }

  lemma SameRest<T>(a: seq<Member<T>>, b: seq<Member<T>>)
    requires Sorted(a) && Sorted(b) && SameMembers(a, b) && a != [] && a[0] == b[0]
    ensures SameMembers(a[1..], b[1..])
  {
    hide Less;
    LessTotal(a[0].key, a[0].key);
    forall k | 0 < k < |a| ensures a[k] in b[1..] && b[k] in a[1..] {
      assert a[k] in b && b[k] in a;
      assert Less(a[0].key, a[k].key) && Less(b[0].key, b[k].key);
      assert a == [a[0]] + a[1..] && b == [b[0]] + b[1..];
    }
  }

  ghost predicate Paired<S, T>(a: seq<Member<S>>, b: seq<Member<T>>, r: (S, T) -> bool) {
    |a| == |b| && forall i :: 0 <= i < |a| ==> a[i].key == b[i].key && r(a[i].value, b[i].value)
  }

  lemma {:induction false} InsertPaired<S, T>(
      m: Member<S>, n: Member<T>, a: seq<Member<S>>, b: seq<Member<T>>, r: (S, T) -> bool)
    requires m.key == n.key && r(m.value, n.value) && Paired(a, b, r)
    ensures Paired(Insert(m, a), Insert(n, b), r)
    decreases |a|
  {
    hide Less;
    if a != [] && Less(a[0].key, m.key) {
      InsertPaired(m, n, a[1..], b[1..], r);
    }
  }

  /** Sorting looks at keys only, so it commutes with any change of the values. */
  lemma {:induction false} SortPaired<S, T>(
      a: seq<Member<S>>, b: seq<Member<T>>, r: (S, T) -> bool)
    requires Paired(a, b, r)
    ensures Paired(SortByKey(a), SortByKey(b), r)
    decreases |a|
  {
    if a != [] {
      hide Insert;
      SortPaired(a[1..], b[1..], r);
      InsertPaired(a[0], b[0], SortByKey(a[1..]), SortByKey(b[1..]), r);
    }
  }

  // ---------------------------------------------------------------- canonical text = plain text of the normalized value

  lemma {:induction false} NormalizedWellFormed(v: Value)
    requires WellFormed(v)
    ensures WellFormed(Normalized(v)) && (Supported(v) <==> Supported(Normalized(v)))
    decreases v
  {
    match v {
      case Array(items) =>
        forall i | 0 <= i < |items| ensures WellFormed(Normalized(items[i])) && (Supported(items[i]) <==> Supported(Normalized(items[i]))) {
          NormalizedWellFormed(items[i]);
        }
        ArrayNormalized(items);
      case Object(ms) =>
        forall i | 0 <= i < |ms| ensures WellFormed(Normalized(ms[i].value)) && (Supported(ms[i].value) <==> Supported(Normalized(ms[i].value))) {
          NormalizedWellFormed(ms[i].value);
        }
        ObjectNormalized(ms);
      case _ =>
    }
  }

  lemma ArrayNormalized(items: seq<Value>)
    requires forall i :: 0 <= i < |items| ==> WellFormed(Normalized(items[i])) && (Supported(items[i]) <==> Supported(Normalized(items[i])))
    ensures WellFormed(Normalized(Array(items))) && (Supported(Array(items)) <==> Supported(Normalized(Array(items))))
  {
    var ns := NormalizedItems(items);
    assert Normalized(Array(items)) == Array(ns);
    hide Normalized;
  }

  lemma ObjectNormalized(ms: seq<Member<Value>>)
    requires DistinctKeys(ms)
    requires forall i :: 0 <= i < |ms| ==> WellFormed(Normalized(ms[i].value)) && (Supported(ms[i].value) <==> Supported(Normalized(ms[i].value)))
    ensures WellFormed(Normalized(Object(ms))) && (Supported(Object(ms)) <==> Supported(Normalized(Object(ms))))
  {
    var ns := NormalizedMembers(ms);
    var sorted := SortByKey(ns);
    assert Normalized(Object(ms)) == Object(sorted);
    hide Normalized, SortByKey;
    SortSorted(ns);
    SortedDistinct(sorted);
    forall i | 0 <= i < |sorted| ensures WellFormed(sorted[i].value) {
      assert sorted[i] in ns;
    }
    if Supported(Object(ms)) {
      forall i | 0 <= i < |sorted| ensures Supported(sorted[i].value) {
        assert sorted[i] in ns;
      }
    }
    if Supported(Object(sorted)) {
      forall i | 0 <= i < |ms| ensures Supported(ms[i].value) {
        assert ns[i] in sorted;
      }
    }
  }

  lemma SortedDistinct<T>(ms: seq<Member<T>>)
    requires Sorted(ms)
    ensures DistinctKeys(ms)
  {
    hide Less;
    forall i, j | 0 <= i < j < |ms| ensures ms[i].key != ms[j].key {
      LessTotal(ms[i].key, ms[j].key);
    }
  }

  ghost predicate Prints(w: Value, t: Text) { WellFormed(w) && PlainText(w) == t }

  /** The canonical text exists exactly for supported values and prints the normalized value. */
  lemma {:induction false} CanonicalPrintsNormalized(v: Value)
    requires WellFormed(v)
    ensures WellFormed(Normalized(v))
    ensures Canonical(v) == if Supported(v) then Some(PlainText(Normalized(v))) else None
    decreases v, 0
  {
    NormalizedWellFormed(v);
    match v {
      case Array(items) =>
        ItemsPrintNormalized(items);
        CanonicalArray(items);
      case Object(ms) =>
        MembersPrintNormalized(ms);
        CanonicalObject(ms);
      case _ =>
    }
  }

  lemma CanonicalArray(items: seq<Value>)
    requires WellFormed(Array(items)) && WellFormed(Array(NormalizedItems(items)))
    requires CanonicalItems(items) == if Supported(Array(items)) then Some(PlainItems(NormalizedItems(items))) else None
    ensures Canonical(Array(items)) == if Supported(Array(items)) then Some(PlainText(Normalized(Array(items)))) else None
  {
    hide CanonicalItems, PlainItems, NormalizedItems, Supported, WellFormed;
  }

  lemma CanonicalObject(ms: seq<Member<Value>>)
    requires WellFormed(Object(ms)) && WellFormed(Normalized(Object(ms)))
    requires CanonicalMembers(ms).Some? <==> Supported(Object(ms))
    requires CanonicalMembers(ms).Some? ==> Paired(NormalizedMembers(ms), CanonicalMembers(ms).value, (w, t) => Prints(w, t))
    ensures Canonical(Object(ms)) == if Supported(Object(ms)) then Some(PlainText(Normalized(Object(ms)))) else None
  {
    var ns := NormalizedMembers(ms);
    assert Normalized(Object(ms)) == Object(SortByKey(ns));
    var texts := CanonicalMembers(ms);
    assert Canonical(Object(ms)) == if texts.None? then None else Some(ObjectText(SortByKey(texts.value)));
    if texts.Some? {
      SortPaired(ns, texts.value, (w, t) => Prints(w, t));
      hide Canonical, CanonicalMembers, NormalizedMembers, Normalized, SortByKey, Supported;
      assert PlainMembers(SortByKey(ns)) == SortByKey(texts.value);
    }
  }

  lemma {:induction false} ItemsPrintNormalized(items: seq<Value>)
    requires forall i :: 0 <= i < |items| ==> WellFormed(items[i])
    ensures forall i :: 0 <= i < |items| ==> WellFormed(Normalized(items[i]))
    ensures CanonicalItems(items) == if Supported(Array(items)) then Some(PlainItems(NormalizedItems(items))) else None
    decreases items, 1
  {
    if items != [] {
      CanonicalPrintsNormalized(items[0]);
      ItemsPrintNormalized(items[1..]);
      assert items == [items[0]] + items[1..];
      assert Supported(Array(items)) <==> Supported(items[0]) && Supported(Array(items[1..]));
      hide Canonical, Normalized, PlainText, WellFormed, Supported;
      assert NormalizedItems(items)[1..] == NormalizedItems(items[1..]);
    }
  }

  lemma PairedCons<S, T>(
      m: Member<S>, n: Member<T>, a: seq<Member<S>>, b: seq<Member<T>>, r: (S, T) -> bool)
    requires m.key == n.key && r(m.value, n.value) && Paired(a, b, r)
    ensures Paired([m] + a, [n] + b, r)
  {
  }

  lemma {:induction false} MembersPrintNormalized(ms: seq<Member<Value>>)
    requires forall i :: 0 <= i < |ms| ==> WellFormed(ms[i].value)
    ensures CanonicalMembers(ms).Some? <==> Supported(Object(ms))
    ensures CanonicalMembers(ms).Some? ==> Paired(NormalizedMembers(ms), CanonicalMembers(ms).value, (w, t) => Prints(w, t))
    decreases ms, 1
  {
    if ms != [] {
      CanonicalPrintsNormalized(ms[0].value);
      MembersPrintNormalized(ms[1..]);
      assert ms == [ms[0]] + ms[1..];
      assert Supported(Object(ms)) <==> Supported(ms[0].value) && Supported(Object(ms[1..]));
      hide Canonical, Normalized, PlainText, WellFormed, Supported, Paired;
      if CanonicalMembers(ms).Some? {
        var text, texts := Canonical(ms[0].value).value, CanonicalMembers(ms[1..]).value;
        PairedCons(Member(ms[0].key, Normalized(ms[0].value)), Member(ms[0].key, text), NormalizedMembers(ms[1..]), texts, (w, t) => Prints(w, t));
      }
    }
  }

  // ---------------------------------------------------------------- same value, same normal form

  predicate HasKey<T>(ms: seq<Member<T>>, key: Text) { exists i :: 0 <= i < |ms| && ms[i].key == key }

  function KeySet<T>(ms: seq<Member<T>>): set<Text> {
    if ms == [] then {} else {ms[0].key} + KeySet(ms[1..])
  }

  lemma {:induction false} KeySetExact<T>(ms: seq<Member<T>>)
    ensures forall k :: k in KeySet(ms) <==> HasKey(ms, k)
    decreases |ms|
  {
    if ms != [] {
      KeySetExact(ms[1..]);
      forall k ensures HasKey(ms, k) <==> k == ms[0].key || HasKey(ms[1..], k) {
        if HasKey(ms[1..], k) {
          var i :| 0 <= i < |ms[1..]| && ms[1..][i].key == k;
          assert ms[i + 1].key == k;
        }
        if HasKey(ms, k) && k != ms[0].key {
          var i :| 0 <= i < |ms| && ms[i].key == k;
          assert ms[1..][i - 1].key == k;
        }
      }
    }
  }

  lemma {:induction false} KeySetSize<T>(ms: seq<Member<T>>)
    requires DistinctKeys(ms)
    ensures |KeySet(ms)| == |ms|
    decreases |ms|
  {
    if ms != [] {
      KeySetSize(ms[1..]);
      KeySetExact(ms[1..]);
      assert ms[0].key !in KeySet(ms[1..]);
    }
  }

  /** As many members, and every key of a occurs in b: then every key of b occurs in a. */
  lemma KeysMatch<S, T>(a: seq<Member<S>>, b: seq<Member<T>>)
    requires DistinctKeys(a) && DistinctKeys(b) && |a| == |b|
    requires forall i :: 0 <= i < |a| ==> HasKey(b, a[i].key)
    ensures forall j :: 0 <= j < |b| ==> HasKey(a, b[j].key)
  {
    KeySetExact(a);
    KeySetExact(b);
    KeySetSize(a);
    KeySetSize(b);
    forall k | k in KeySet(a) ensures k in KeySet(b) {
      var i :| 0 <= i < |a| && a[i].key == k;
    }
    SubsetOfSameSize(KeySet(a), KeySet(b));
    forall j | 0 <= j < |b| ensures HasKey(a, b[j].key) {
      assert HasKey(b, b[j].key);
    }
  }

  /** Members with distinct keys, as many on each side, each of a found in b: the same members. */
  lemma SubsetIsSame<T>(a: seq<Member<T>>, b: seq<Member<T>>)
    requires DistinctKeys(a) && DistinctKeys(b) && |a| == |b|
    requires forall i :: 0 <= i < |a| ==> a[i] in b
    ensures SameMembers(a, b)
  {
    forall i | 0 <= i < |a| ensures HasKey(b, a[i].key) {
      var j :| 0 <= j < |b| && b[j] == a[i];
    }
    KeysMatch(a, b);
    forall j | 0 <= j < |b| ensures b[j] in a {
      assert HasKey(a, b[j].key);
      var i :| 0 <= i < |a| && a[i].key == b[j].key;
      assert a[i] in b;
      var k :| 0 <= k < |b| && b[k] == a[i];
      assert k == j;
    }
  }

  /** Two member lists with the same normalized members have the same normal form. */
  lemma SortedAlike(a: seq<Member<Value>>, b: seq<Member<Value>>)
    requires DistinctKeys(a) && DistinctKeys(b) && |a| == |b|
    requires forall i :: 0 <= i < |a| ==> NormalizedMembers(a)[i] in NormalizedMembers(b)
    ensures Normalized(Object(a)) == Normalized(Object(b))
  {
    var na, nb := NormalizedMembers(a), NormalizedMembers(b);
    assert Normalized(Object(a)) == Object(SortByKey(na)) && Normalized(Object(b)) == Object(SortByKey(nb));
    assert DistinctKeys(na) && DistinctKeys(nb);
    hide Normalized, NormalizedMembers, SortByKey, SameMembers, Sorted;
    SubsetIsSame(na, nb);
    SortSorted(na);
    SortSorted(nb);
    SameMembersTrans(SortByKey(na), na, nb);
    SameMembersFlip(SortByKey(nb), nb);
    SameMembersTrans(SortByKey(na), nb, SortByKey(nb));
    SortedUnique(SortByKey(na), SortByKey(nb));
  }

  lemma SameMembersFlip<T>(a: seq<Member<T>>, b: seq<Member<T>>)
    requires SameMembers(a, b)
    ensures SameMembers(b, a)
  {
  }

  lemma {:induction false} SameNormalized(v: Value, w: Value)
    requires WellFormed(v) && WellFormed(w) && Same(v, w)
    ensures Normalized(v) == Normalized(w)
    decreases v
  {
    if v.Array? && w.Array? {
      forall i | 0 <= i < |v.items| ensures Normalized(v.items[i]) == Normalized(w.items[i]) {
        SameNormalized(v.items[i], w.items[i]);
      }
      assert NormalizedItems(v.items) == NormalizedItems(w.items);
    } else if v.Object? && w.Object? {
      var a, b := v.members, w.members;
      var na, nb := NormalizedMembers(a), NormalizedMembers(b);
      forall i | 0 <= i < |a| ensures na[i] in nb {
        assert HasSame(b, a[i].key, a[i].value);
        var j :| 0 <= j < |b| && b[j].key == a[i].key && Same(a[i].value, b[j].value);
        SameNormalized(a[i].value, b[j].value);
        assert nb[j] == na[i];
      }
      SortedAlike(a, b);
    }
  }

  lemma {:induction false} NormalizedSame(v: Value, w: Value)
    requires WellFormed(v) && WellFormed(w) && Normalized(v) == Normalized(w)
    ensures Same(v, w)
    decreases v
  {
    if v.Array? && w.Array? {
      var a, b := NormalizedItems(v.items), NormalizedItems(w.items);
      assert a == b;
      forall i | 0 <= i < |v.items| ensures Same(v.items[i], w.items[i]) {
        assert a[i] == b[i];
        NormalizedSame(v.items[i], w.items[i]);
      }
    } else if v.Object? && w.Object? {
      var a, b := v.members, w.members;
      var na, nb := NormalizedMembers(a), NormalizedMembers(b);
      SortedFrom(a, b);
      forall i | 0 <= i < |a| ensures HasSame(b, a[i].key, a[i].value) {
        assert na[i] in nb;
        var j :| 0 <= j < |nb| && nb[j] == na[i];
        NormalizedSame(a[i].value, b[j].value);
      }
    }
  }

  lemma SortedFrom(a: seq<Member<Value>>, b: seq<Member<Value>>)
    requires DistinctKeys(a) && DistinctKeys(b) && Normalized(Object(a)) == Normalized(Object(b))
    ensures |a| == |b|
    ensures forall i :: 0 <= i < |a| ==> NormalizedMembers(a)[i] in NormalizedMembers(b)
  {
    var na, nb := NormalizedMembers(a), NormalizedMembers(b);
    assert SortByKey(na) == SortByKey(nb);
    assert DistinctKeys(na) && DistinctKeys(nb);
    hide Normalized, NormalizedMembers, SortByKey, SameMembers;
    SortSorted(na);
    SortSorted(nb);
    SameMembersFlip(SortByKey(na), na);
    SameMembersTrans(na, SortByKey(na), nb);
    SameMembersAll(na, nb);
  }

  lemma SameMembersAll<T>(a: seq<Member<T>>, b: seq<Member<T>>)
    requires SameMembers(a, b)
    ensures |a| == |b| && forall i :: 0 <= i < |a| ==> a[i] in b
  {
  }

  // ---------------------------------------------------------------- main results

  /** Parsing the canonical text gives the value back, up to the order of object members. */
  lemma CanonicalRoundTrip(v: Value)
    requires WellFormed(v)
    ensures Canonical(v).Some? <==> Supported(v)
    ensures Supported(v) ==>
              Parse(Canonical(v).value) == Some(Normalized(v)) && WellFormed(Normalized(v)) && Same(v, Normalized(v))
  {
    hide Canonical, Normalized, Same, Parse;
    CanonicalPrintsNormalized(v);
    NormalizedWellFormed(v);
    if Supported(v) {
      ParsePlain(Normalized(v));
      NormalizedTwice(v);
      NormalizedSame(v, Normalized(v));
    }
  }

  lemma {:induction false} NormalizedTwice(v: Value)
    requires WellFormed(v)
    ensures Normalized(Normalized(v)) == Normalized(v)
    decreases v
  {
    match v {
      case Array(items) =>
        forall i | 0 <= i < |items| ensures Normalized(Normalized(items[i])) == Normalized(items[i]) {
          NormalizedTwice(items[i]);
        }
        assert NormalizedItems(NormalizedItems(items)) == NormalizedItems(items);
      case Object(ms) =>
        forall i | 0 <= i < |ms| ensures Normalized(Normalized(ms[i].value)) == Normalized(ms[i].value) {
          NormalizedTwice(ms[i].value);
        }
        ObjectTwice(ms);
      case _ =>
    }
  }

  lemma ObjectTwice(ms: seq<Member<Value>>)
    requires DistinctKeys(ms)
    requires forall i :: 0 <= i < |ms| ==> Normalized(Normalized(ms[i].value)) == Normalized(ms[i].value)
    ensures Normalized(Normalized(Object(ms))) == Normalized(Object(ms))
  {
    var ns := NormalizedMembers(ms);
    var sorted := SortByKey(ns);
    assert Normalized(Object(ms)) == Object(sorted);
    SortSorted(ns);
    SortedDistinct(sorted);
    hide Normalized, SortByKey;
    var again := NormalizedMembers(sorted);
    forall i | 0 <= i < |sorted| ensures again[i] in ns {
      assert sorted[i] in ns;
      var j :| 0 <= j < |ns| && ns[j] == sorted[i];
      assert again[i] == ns[j];
    }
    SortedAlike(sorted, ms);
  }

  /** Equal canonical texts mean equal JSON values, and conversely: insertion order does not matter, everything else does. */
  lemma CanonicalIdentifies(v: Value, w: Value)
    requires WellFormed(v) && WellFormed(w) && Supported(v) && Supported(w)
    ensures Canonical(v) == Canonical(w) <==> Same(v, w)
  {
    hide Canonical, Normalized, Same, Parse, WellFormed, Supported;
    CanonicalRoundTrip(v);
    CanonicalRoundTrip(w);
    if Canonical(v) == Canonical(w) {
      NormalizedSame(v, w);
    }
    if Same(v, w) {
      SameNormalized(v, w);
      CanonicalPrintsNormalized(v);
      CanonicalPrintsNormalized(w);
    }
  }
}
