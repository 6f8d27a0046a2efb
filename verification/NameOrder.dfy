/** Lists of names in dictionary order, and searching them by halving. */
module NameOrder {
  import opened Common
  import opened Sorting

  datatype Entry = Entry(name: string, topic: string, alias: bool)

  // Dictionary order.
  predicate Less(a: string, b: string) {
    b != "" && (a == "" || a[0] < b[0] || (a[0] == b[0] && Less(a[1..], b[1..])))
  }

  predicate IsPrefix(p: string, s: string) {
    |p| <= |s| && s[..|p|] == p
  }

  predicate Contains(s: string, part: string) {
    IsPrefix(part, s) || (s != "" && Contains(s[1..], part))
  }

  lemma {:induction false} Compared(a: string, b: string)
    ensures !(Less(a, b) && Less(b, a)) && (a != b ==> Less(a, b) || Less(b, a)) && !Less(a, a)
  {
    if a != "" && b != "" {
      Compared(a[1..], b[1..]);
      if a != b && a[0] == b[0] {
        assert a == [a[0]] + a[1..] && b == [b[0]] + b[1..];
      }
    }
    if a != "" {
      Compared(a[1..], a[1..]);
    }
  }

  lemma {:induction false} LessTransitive(a: string, b: string, c: string)
    requires !Less(b, a) && !Less(c, b)
    ensures !Less(c, a)
  {
    if a != "" && b != "" && c != "" && a[0] == b[0] == c[0] {
      LessTransitive(a[1..], b[1..], c[1..]);
    }
  }

  lemma {:induction false} PrefixNotLess(p: string, s: string)
    requires IsPrefix(p, s)
    ensures !Less(s, p)
  {
    if p != "" {
      assert p[0] == s[..|p|][0] == s[0];
      assert s[1..][..|p| - 1] == s[..|p|][1..] == p[1..];
      PrefixNotLess(p[1..], s[1..]);
    }
  }

  /** Between a word and a word that starts with it, all words start with it. */
  lemma {:induction false} PrefixBetween(p: string, s: string, t: string)
    requires !Less(s, p) && !Less(t, s) && IsPrefix(p, t)
    ensures IsPrefix(p, s)
  {
    if p != "" {
      assert p[0] == t[..|p|][0] == t[0];
      assert s != "";
      assert s[0] == p[0];
      assert t[1..][..|p| - 1] == t[..|p|][1..] == p[1..];
      PrefixBetween(p[1..], s[1..], t[1..]);
      assert s[..|p|] == [s[0]] + s[1..][..|p| - 1];
      assert p == [p[0]] + p[1..];
    }
  }

  ghost predicate Sorted(names: seq<Entry>) {
    forall i, j :: 0 <= i < j < |names| ==> !Less(names[j].name, names[i].name)
  }

  // ----- what a search should find -----

  datatype Mode = Prefix | Full | Keyword

  predicate Matches(name: string, query: string, mode: Mode) {
    match mode
    case Prefix => IsPrefix(query, name)
    case Full => name == query
    case Keyword => Contains(name, query)
  }

  // The linear scan: all matching entries in the order of the list.
  function Hits(names: seq<Entry>, query: string, mode: Mode): (r: seq<Entry>)
    ensures |r| <= |names|
  {
    if names == [] then []
    else (if Matches(names[0].name, query, mode) then [names[0]] else []) + Hits(names[1..], query, mode)
  }

  lemma {:induction false} HitsAppend(a: seq<Entry>, b: seq<Entry>, query: string, mode: Mode)
    ensures Hits(a + b, query, mode) == Hits(a, query, mode) + Hits(b, query, mode)
  {
    hide Matches;
    if a == [] {
      assert a + b == b;
    } else {
      HitsAppend(a[1..], b, query, mode);
      assert (a + b)[0] == a[0] && (a + b)[1..] == a[1..] + b;
      var first := if Matches(a[0].name, query, mode) then [a[0]] else [];
      assert first + (Hits(a[1..], query, mode) + Hits(b, query, mode)) ==
             first + Hits(a[1..], query, mode) + Hits(b, query, mode);
    }
  }

  lemma {:induction false} HitsNone(names: seq<Entry>, query: string, mode: Mode)
    requires forall i :: 0 <= i < |names| ==> !Matches(names[i].name, query, mode)
    ensures Hits(names, query, mode) == []
  {
    if names != [] {
      assert forall i :: 0 <= i < |names| - 1 ==> names[1..][i] == names[i + 1];
      HitsNone(names[1..], query, mode);
    }
  }

  lemma {:induction false} HitsAll(names: seq<Entry>, query: string, mode: Mode)
    requires forall i :: 0 <= i < |names| ==> Matches(names[i].name, query, mode)
    ensures Hits(names, query, mode) == names
  {
    if names != [] {
      HitsAll(names[1..], query, mode);
      assert names == [names[0]] + names[1..];
    }
  }

  /** When the matches are the entries from lo to hi, they are what the scan finds. */
  lemma HitsBlock(names: seq<Entry>, query: string, mode: Mode, lo: nat, hi: nat)
    requires lo <= hi <= |names|
    requires forall i :: 0 <= i < |names| ==> (Matches(names[i].name, query, mode) <==> lo <= i < hi)
    ensures Hits(names, query, mode) == names[lo..hi]
  {
    assert names == names[..lo] + names[lo..hi] + names[hi..];
    HitsAppend(names[..lo] + names[lo..hi], names[hi..], query, mode);
    HitsAppend(names[..lo], names[lo..hi], query, mode);
    HitsNone(names[..lo], query, mode);
    HitsAll(names[lo..hi], query, mode);
    HitsNone(names[hi..], query, mode);
  }

  // ----- searching by halving -----

  // Everything before lo is less than the query, and lo is the first that is not, or the last entry.
  ghost predicate LowerBound(names: seq<Entry>, query: string, lo: nat) {
    && lo <= |names| && (names != [] ==> lo < |names|)
    && (forall i :: 0 <= i < lo ==> Less(names[i].name, query))
    && (lo + 1 < |names| ==> !Less(names[lo].name, query))
  }

  method FindLowerBound(names: seq<Entry>, query: string) returns (lo: nat)
    requires Sorted(names)
    ensures LowerBound(names, query, lo)
  {
    lo := 0;
    var hi := |names| - 1;
    while lo < hi
      invariant 0 <= lo && (names == [] ==> lo == 0 && hi == -1) && (names != [] ==> lo <= hi < |names|)
      invariant forall i :: 0 <= i < lo ==> Less(names[i].name, query)
      invariant names != [] && hi + 1 < |names| ==> !Less(names[hi].name, query)
    {
      var mid := (lo + hi) / 2;
      if Less(names[mid].name, query) {
        forall i | 0 <= i < mid + 1
          ensures Less(names[i].name, query)
        {
          BelowBound(names, query, i, mid);
        }
        lo := mid + 1;
      } else {
        hi := mid;
      }
    }
  }

  lemma BelowBound(names: seq<Entry>, query: string, i: nat, mid: nat)
    requires Sorted(names) && i <= mid < |names| && Less(names[mid].name, query)
    ensures Less(names[i].name, query)
  {
    if i < mid && !Less(names[i].name, query) {
      LessTransitive(query, names[i].name, names[mid].name);
    }
  }

  // How far the matches go from the lower bound.
  lemma MatchesFrom(names: seq<Entry>, query: string, mode: Mode, lo: nat, hi: nat)
    requires Sorted(names) && LowerBound(names, query, lo) && !mode.Keyword? && lo <= hi <= |names|
    requires forall i :: lo <= i < hi ==> Matches(names[i].name, query, mode)
    requires hi < |names| ==> !Matches(names[hi].name, query, mode)
    ensures Hits(names, query, mode) == names[lo..hi]
  {
    forall i | 0 <= i < |names|
      ensures Matches(names[i].name, query, mode) <==> lo <= i < hi
    {
      if i < lo {
        LessNoMatch(names[i].name, query, mode);
      } else if i >= hi {
        PastNoMatch(names, query, mode, lo, hi, i);
      }
    }
    HitsBlock(names, query, mode, lo, hi);
  }

  lemma LessNoMatch(name: string, query: string, mode: Mode)
    requires Less(name, query) && !mode.Keyword?
    ensures !Matches(name, query, mode)
  {
    Compared(name, query);
    if IsPrefix(query, name) {
      PrefixNotLess(query, name);
    }
  }

  lemma PastNoMatch(names: seq<Entry>, query: string, mode: Mode, lo: nat, hi: nat, i: nat)
    requires Sorted(names) && LowerBound(names, query, lo) && !mode.Keyword? && lo <= hi <= i < |names|
    requires forall k :: lo <= k < hi ==> Matches(names[k].name, query, mode)
    requires !Matches(names[hi].name, query, mode)
    ensures !Matches(names[i].name, query, mode)
  {
    var here, there := names[hi].name, names[i].name;
    if i > hi && Matches(there, query, mode) {
      assert !Less(names[lo].name, query);
      if hi > lo {
        LessTransitive(query, names[lo].name, here);
      }
      if mode.Prefix? {
        PrefixBetween(query, here, there);
      } else {
        Compared(here, query);
      }
    }
  }

  // A full match, if there is one.
  method FindName(names: seq<Entry>, name: string) returns (r: Option<Entry>)
    requires Sorted(names)
    ensures r.Some? <==> exists e :: e in names && e.name == name
    ensures r.Some? ==> r.value in names && r.value.name == name
  {
    var lo, hi := 0, |names| - 1;
    while lo <= hi
      invariant 0 <= lo <= hi + 1 <= |names|
      invariant forall i :: 0 <= i < |names| && names[i].name == name ==> lo <= i <= hi
    {
      var mid := (lo + hi) / 2;
      var entry := names[mid];
      Compared(entry.name, name);
      if Less(entry.name, name) {
        forall i | 0 <= i <= mid
          ensures names[i].name != name
        {
          BelowBound(names, name, i, mid);
          Compared(names[i].name, name);
        }
        lo := mid + 1;
      } else if Less(name, entry.name) {
        forall i | mid <= i < |names|
          ensures names[i].name != name
        {
          assert i > mid ==> !Less(names[i].name, entry.name);
        }
        hi := mid - 1;
      } else {
        return Some(entry);
      }
    }
    return None;
  }

  // ----- sorting -----

  function ByName(): (Entry, Entry) -> bool {
    (a: Entry, b: Entry) => !Less(b.name, a.name)
  }

  lemma NamesAreOrdered()
    ensures Ordering(ByName())
  {
    forall x: Entry, y: Entry ensures ByName()(x, y) || ByName()(y, x) {
      Compared(x.name, y.name);
    }
    forall x: Entry, y: Entry, z: Entry | ByName()(x, y) && ByName()(y, z) ensures ByName()(x, z) {
      LessTransitive(x.name, y.name, z.name);
    }
  }

  // The library's sort.
  method SortByName(names: seq<Entry>) returns (r: seq<Entry>)
    ensures Sorted(r) && multiset(r) == multiset(names)
  {
    NamesAreOrdered();
    r := Sort(names, ByName());
  }
}
