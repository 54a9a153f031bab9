/** Go strings as byte strings: a char here is one byte. Byte-wise order, and sorting by it. */
module Text {

  predicate IsBytes(s: string) { forall i :: 0 <= i < |s| ==> s[i] <= 0xFF as char }

  predicate Less(s: string, t: string) {
    if t == "" then false
    else if s == "" then true
    else s[0] < t[0] || (s[0] == t[0] && Less(s[1..], t[1..]))
  }

  predicate AtMost(s: string, t: string) { !Less(t, s) }

  lemma LessTotal(s: string, t: string)
    ensures Less(s, t) || s == t || Less(t, s)
    ensures !(Less(s, t) && Less(t, s))
    ensures !Less(s, s)
  {
    if s != "" && t != "" {
      LessTotal(s[1..], t[1..]);
      assert s == [s[0]] + s[1..] && t == [t[0]] + t[1..];
    }
    if s != "" {
      LessTotal(s[1..], s[1..]);
    }
  }

  lemma LessTransitive(s: string, t: string, u: string)
    requires Less(s, t) && Less(t, u)
    ensures Less(s, u)
  {
    if s != "" && s[0] == t[0] == u[0] {
      LessTransitive(s[1..], t[1..], u[1..]);
    }
  }

  predicate Sorted(ks: seq<string>) { forall i, j :: 0 <= i < j < |ks| ==> AtMost(ks[i], ks[j]) }

  predicate StrictlySorted(ks: seq<string>) { forall i, j :: 0 <= i < j < |ks| ==> Less(ks[i], ks[j]) }

  /** sort.Strings: the list in byte order. */
  function Sort(ks: seq<string>): (r: seq<string>)
    ensures |r| == |ks|
  {
    if ks == [] then [] else Insert(Sort(ks[1..]), ks[0])
  }

  function Insert(ks: seq<string>, k: string): (r: seq<string>)
    ensures |r| == |ks| + 1
  {
    if ks == [] then [k]
    else if AtMost(k, ks[0]) then [k] + ks
    else [ks[0]] + Insert(ks[1..], k)
  }

  lemma InsertContains(ks: seq<string>, k: string, x: string)
    requires multiset(Insert(ks, k)) == multiset(ks) + multiset{k} && x in Insert(ks, k)
    ensures x == k || x in ks
  {
    assert x in multiset(Insert(ks, k));
  }

  lemma InsertSorts(ks: seq<string>, k: string)
    requires Sorted(ks)
    ensures Sorted(Insert(ks, k)) && multiset(Insert(ks, k)) == multiset(ks) + multiset{k}
  {
    hide Less;
    if ks == [] {
    } else if AtMost(k, ks[0]) {
      forall j | 0 <= j < |ks| ensures AtMost(k, ks[j]) {
        AtMostTransitive(k, ks[0], ks[j]);
      }
    } else {
      InsertSorts(ks[1..], k);
      var rest := Insert(ks[1..], k);
      assert ks == [ks[0]] + ks[1..];
      LessTotal(ks[0], k);
      forall j | 0 <= j < |rest| ensures AtMost(ks[0], rest[j]) {
        InsertContains(ks[1..], k, rest[j]);
      }
    }
  }

  lemma AtMostTransitive(s: string, t: string, u: string)
    requires AtMost(s, t) && (AtMost(t, u) || t == u)
    ensures AtMost(s, u)
  {
    LessTotal(s, t);
    LessTotal(t, u);
    LessTotal(s, u);
    if s != t && t != u {
      LessTransitive(s, t, u);
    }
  }

  lemma {:induction false} SortSorts(ks: seq<string>)
    ensures Sorted(Sort(ks)) && multiset(Sort(ks)) == multiset(ks)
  {
    if ks != [] {
      SortSorts(ks[1..]);
      InsertSorts(Sort(ks[1..]), ks[0]);
      assert ks == [ks[0]] + ks[1..];
    }
  }

  lemma HeadAtMost(a: seq<string>, k: string)
    requires Sorted(a) && k in multiset(a)
    ensures |a| > 0 && AtMost(a[0], k)
  {
    var i :| 0 <= i < |a| && a[i] == k;
    LessTotal(k, k);
  }

  lemma SameHead(a: seq<string>, b: seq<string>)
    requires Sorted(a) && Sorted(b) && multiset(a) == multiset(b) && a != []
    ensures b != [] && a[0] == b[0]
  {
    hide Less;
    assert a[0] in multiset(a);
    HeadAtMost(b, a[0]);
    assert b[0] in multiset(b);
    HeadAtMost(a, b[0]);
    LessTotal(a[0], b[0]);
  }

  lemma SortedTail(a: seq<string>)
    requires Sorted(a) && a != []
    ensures Sorted(a[1..])
  {
  }

  /** Order and content determine a sorted list. */
  lemma {:induction false} SortedUnique(a: seq<string>, b: seq<string>)
    requires Sorted(a) && Sorted(b) && multiset(a) == multiset(b)
    ensures a == b
  {
    hide Less, AtMost, Sorted;
    assert |a| == |multiset(a)| == |multiset(b)| == |b|;
    if a != [] {
      SameHead(a, b);
      SortedTail(a);
      SortedTail(b);
      assert a == [a[0]] + a[1..] && b == [b[0]] + b[1..];
      assert multiset(a[1..]) == multiset(a) - multiset{a[0]} == multiset(b[1..]);
      SortedUnique(a[1..], b[1..]);
    }
  }

  /** Sorting forgets the order it was given. */
  lemma {:induction false} SortOrderFree(a: seq<string>, b: seq<string>)
    requires multiset(a) == multiset(b)
    ensures Sort(a) == Sort(b)
  {
    SortSorts(a);
    SortSorts(b);
    SortedUnique(Sort(a), Sort(b));
  }

  /** A set has one strictly sorted listing. */
  lemma {:induction false} ListingUnique(a: seq<string>, b: seq<string>)
    requires StrictlySorted(a) && StrictlySorted(b)
    requires forall k :: k in a <==> k in b
    ensures a == b
  {
    StrictIsSorted(a);
    StrictIsSorted(b);
    forall k ensures multiset(a)[k] == multiset(b)[k] {
      StrictOnce(a, k);
      StrictOnce(b, k);
    }
    assert multiset(a) == multiset(b);
    SortedUnique(a, b);
  }

  lemma StrictIsSorted(a: seq<string>)
    requires StrictlySorted(a)
    ensures Sorted(a)
  {
    forall i, j | 0 <= i < j < |a| ensures AtMost(a[i], a[j]) {
      LessTotal(a[i], a[j]);
    }
  }

  lemma StrictOnce(a: seq<string>, k: string)
    requires StrictlySorted(a)
    ensures multiset(a)[k] == if k in a then 1 else 0
  {
    if a != [] {
      StrictOnce(a[1..], k);
      assert a == [a[0]] + a[1..];
      if a[0] in a[1..] {
        var i :| 0 <= i < |a[1..]| && a[1..][i] == a[0];
        assert Less(a[0], a[i + 1]);
        LessTotal(a[0], a[0]);
      }
    }
  }
}
