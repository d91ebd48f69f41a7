/**
 * The high-score list: entries of initials and score, kept under one storage
 * key as the whole list, ordered from the highest score down.
 */
module HighScores {
  import opened Wrappers

  datatype Entry = Entry(score: int, initials: string)

  /**
   * The characters `String.prototype.trim` strips: the ECMAScript white space
   * (tab, vertical tab, form feed, space, no-break space, byte order mark and the
   * other Unicode space separators) and the line terminators.
   */
  predicate IsWhitespace(c: char) {
    c in {'\U{9}', '\U{B}', '\U{C}', '\U{20}', '\U{A0}', '\U{FEFF}', '\U{1680}',
          '\U{2000}', '\U{2001}', '\U{2002}', '\U{2003}', '\U{2004}', '\U{2005}', '\U{2006}',
          '\U{2007}', '\U{2008}', '\U{2009}', '\U{200A}', '\U{202F}', '\U{205F}', '\U{3000}',
          '\U{A}', '\U{D}', '\U{2028}', '\U{2029}'}
  }

  /** `s` without its leading white space. */
  function TrimStart(s: string): (r: string)
    ensures |r| <= |s| && r == s[|s| - |r|..]
    ensures forall i :: 0 <= i < |s| - |r| ==> IsWhitespace(s[i])
    ensures r != [] ==> !IsWhitespace(r[0])
  {
    if s != [] && IsWhitespace(s[0]) then TrimStart(s[1..]) else s
  }

  /** `s` without its trailing white space. */
  function TrimEnd(s: string): (r: string)
    ensures |r| <= |s| && r == s[..|r|]
    ensures forall i :: |r| <= i < |s| ==> IsWhitespace(s[i])
    ensures r != [] ==> !IsWhitespace(r[|r| - 1])
  {
    if s != [] && IsWhitespace(s[|s| - 1]) then TrimEnd(s[..|s| - 1]) else s
  }

  /** `s` without white space at either end, as `String.prototype.trim` gives it. */
  function Trim(s: string): (r: string) {
    TrimEnd(TrimStart(s))
  }

  /**
   * Trim drops only white space, at either end: the result is empty exactly when
   * the input is all white space, and otherwise neither starts nor ends with it.
   */
  lemma TrimStrips(s: string)
    ensures |Trim(s)| <= |s|
    ensures Trim(s) == [] <==> forall i :: 0 <= i < |s| ==> IsWhitespace(s[i])
    ensures Trim(s) != [] ==> !IsWhitespace(Trim(s)[0]) && !IsWhitespace(Trim(s)[|Trim(s)| - 1])
  {
    var t := TrimStart(s);
    var r := TrimEnd(t);
    if r == [] {
      forall i | 0 <= i < |s| ensures IsWhitespace(s[i]) {
        if i >= |s| - |t| {
          assert s[i] == t[i - (|s| - |t|)];
        }
      }
    } else {
      assert r[0] == t[0];
      assert !IsWhitespace(s[|s| - |t|]);
    }
  }

  /** Trim keeps one contiguous piece of the input and drops only white space around it. */
  lemma TrimIsSlice(s: string)
    ensures exists lo, hi :: 0 <= lo <= hi <= |s| && Trim(s) == s[lo..hi] &&
              forall i :: 0 <= i < lo || hi <= i < |s| ==> IsWhitespace(s[i])
  {
    var t := TrimStart(s);
    var r := TrimEnd(t);
    var lo, hi := |s| - |t|, |s| - |t| + |r|;
    assert t == s[lo..] && r == t[..|r|];
    forall i | hi <= i < |s| ensures IsWhitespace(s[i]) {
      assert s[i] == t[i - lo];
    }
    assert Trim(s) == s[lo..hi];
    assert forall i :: 0 <= i < lo || hi <= i < |s| ==> IsWhitespace(s[i]);
  }

  /** Trimming twice is trimming once. */
  lemma TrimIdempotent(s: string)
    ensures Trim(Trim(s)) == Trim(s)
  {
    TrimStrips(s);
    var r := Trim(s);
    if r != [] {
      assert TrimStart(r) == r;
      assert TrimEnd(r) == r;
    }
  }

  /** Ordered from the highest score down (ties in any order). */
  predicate SortedDesc(s: seq<Entry>) {
    forall i, j :: 0 <= i < j < |s| ==> s[i].score >= s[j].score
  }

  /**
   * The in-place sort with comparator `(a, b) => b.score - a.score`: afterwards
   * the array is ordered from the highest score down and holds the same entries.
   * The order of equal scores is not promised.
   */
  method SortByScoreDescending(a: array<Entry>)
    modifies a
    ensures SortedDesc(a[..])
    ensures multiset(a[..]) == multiset(old(a[..]))
  {
    var i := 0;
    while i < a.Length
      invariant 0 <= i <= a.Length
      invariant forall p, q :: 0 <= p < q < i ==> a[p].score >= a[q].score
      invariant multiset(a[..]) == multiset(old(a[..]))
    {
      SinkInto(a, i);
      i := i + 1;
    }
  }

  /** One insertion step: moves `a[i]` down past every lower score before it. */
  method SinkInto(a: array<Entry>, i: nat)
    requires i < a.Length
    requires forall p, q :: 0 <= p < q < i ==> a[p].score >= a[q].score
    modifies a
    ensures forall p, q :: 0 <= p < q <= i ==> a[p].score >= a[q].score
    ensures multiset(a[..]) == multiset(old(a[..]))
    ensures forall k :: i < k < a.Length ==> a[k] == old(a[k])
    ensures multiset(a[..i + 1]) == multiset(old(a[..i + 1]))
  {
    var j := i;
    while j > 0 && a[j - 1].score < a[j].score
      invariant 0 <= j <= i
      invariant Sinking(a[..], i, j)
      invariant a[i + 1..] == old(a[i + 1..])
      invariant multiset(a[..]) == multiset(old(a[..]))
    {
      SinkOnce(a, i, j);
      j := j - 1;
    }
    SinkingDone(a[..], i, j);
    SameRestSamePrefix(old(a[..]), a[..], i + 1);
  }

  /** One exchange of the insertion: the moving entry passes the lower score just before it. */
  method SinkOnce(a: array<Entry>, i: nat, j: nat)
    requires 0 < j <= i < a.Length
    requires Sinking(a[..], i, j) && a[j - 1].score < a[j].score
    modifies a
    ensures Sinking(a[..], i, j - 1)
    ensures a[i + 1..] == old(a[i + 1..])
    ensures multiset(a[..]) == multiset(old(a[..]))
  {
    ghost var before := a[..];
    SwapAdjacent(a, j);
    SinkingStep(before, a[..], i, j);
  }

  /**
   * The insertion of `s[i]` in progress: the entry being moved sits at `j`, no
   * lower score than anything after it up to `i`, and the rest of `s[..i + 1]`
   * is in order around it.
   */
  ghost predicate Sinking(s: seq<Entry>, i: nat, j: nat)
    requires j <= i < |s|
  {
    (forall p, q :: 0 <= p < q <= i && p != j && q != j ==> s[p].score >= s[q].score) &&
    (forall q :: j < q <= i ==> s[j].score >= s[q].score) &&
    (0 < j < i ==> s[j - 1].score >= s[j + 1].score)
  }

  /** Exchanging the moving entry with a lower score before it moves the insertion one place down. */
  lemma SinkingStep(before: seq<Entry>, after: seq<Entry>, i: nat, j: nat)
    requires 0 < j <= i < |before| == |after|
    requires Sinking(before, i, j) && before[j - 1].score < before[j].score
    requires after[j - 1] == before[j] && after[j] == before[j - 1]
    requires forall k :: 0 <= k < |before| && k != j - 1 && k != j ==> after[k] == before[k]
    ensures Sinking(after, i, j - 1)
  {
  }

  /** Once no lower score precedes the moving entry, all of `s[..i + 1]` is in order. */
  lemma SinkingDone(s: seq<Entry>, i: nat, j: nat)
    requires j <= i < |s| && Sinking(s, i, j)
    requires j == 0 || s[j - 1].score >= s[j].score
    ensures forall p, q :: 0 <= p < q <= i ==> s[p].score >= s[q].score
  {
  }

  /** Two rearrangements of each other that agree from `n` on agree as multisets before `n`. */
  lemma SameRestSamePrefix(before: seq<Entry>, after: seq<Entry>, n: nat)
    requires n <= |before| == |after| && multiset(after) == multiset(before)
    requires after[n..] == before[n..]
    ensures multiset(after[..n]) == multiset(before[..n])
  {
    assert before == before[..n] + before[n..];
    assert after == after[..n] + after[n..];
    assert multiset(after[..n]) == multiset(after) - multiset(after[n..]);
    assert multiset(before[..n]) == multiset(before) - multiset(before[n..]);
  }

  /** Exchanges `a[j - 1]` and `a[j]`, leaving every other cell as it was. */
  method SwapAdjacent(a: array<Entry>, j: nat)
    requires 0 < j < a.Length
    modifies a
    ensures a[j - 1] == old(a[j]) && a[j] == old(a[j - 1])
    ensures forall k :: 0 <= k < a.Length && k != j - 1 && k != j ==> a[k] == old(a[k])
    ensures multiset(a[..]) == multiset(old(a[..]))
  {
    a[j - 1], a[j] := a[j], a[j - 1];
  }

  /**
   * The list update of a score registration: with nothing stored, the list is
   * the new entry alone; otherwise the stored list with the entry appended,
   * sorted from the highest score down.
   */
  method AddEntry(stored: Option<seq<Entry>>, entry: Entry) returns (updated: seq<Entry>)
    ensures SortedDesc(updated)
    ensures multiset(updated) == multiset(stored.GetOr([]) + [entry])
    ensures |updated| == |stored.GetOr([])| + 1
    ensures stored == None ==> updated == [entry]
    ensures entry in updated
  {
    match stored
    case None =>
      updated := [entry];
    case Some(list) =>
      var pushed := list + [entry];
      var a := new Entry[|pushed|](i requires 0 <= i < |pushed| => pushed[i]);
      assert a[..] == pushed;
      SortByScoreDescending(a);
      updated := a[..];
      assert |updated| == |multiset(updated)| == |multiset(pushed)| == |pushed|;
      assert entry == pushed[|list|] && entry in multiset(pushed);
      assert entry in multiset(updated);
  }

  /**
   * With distinct scores the order is fully determined: a sorted list holding
   * the same entries as another sorted list is that list.
   */
  lemma {:induction false} SortedWithDistinctScoresUnique(s: seq<Entry>, t: seq<Entry>)
    requires SortedDesc(s) && SortedDesc(t) && multiset(s) == multiset(t)
    requires forall i, j :: 0 <= i < j < |t| ==> t[i].score != t[j].score
    ensures s == t
    decreases |s|
  {
    assert |s| == |multiset(s)| == |multiset(t)| == |t|;
    if s != [] {
      SameHead(s, t);
      SameTail(s, t);
      SortedWithDistinctScoresUnique(s[1..], t[1..]);
      assert s == [s[0]] + s[1..] && t == [t[0]] + t[1..];
    }
  }

  /** Two sorted lists of the same entries, one with distinct scores, start alike. */
  lemma SameHead(s: seq<Entry>, t: seq<Entry>)
    requires SortedDesc(s) && SortedDesc(t) && multiset(s) == multiset(t)
    requires forall i, j :: 0 <= i < j < |t| ==> t[i].score != t[j].score
    requires s != []
    ensures t != [] && s[0] == t[0]
  {
    assert s[0] in multiset(t);
    var j :| 0 <= j < |t| && t[j] == s[0];
    assert t[0] in multiset(s);
    var i :| 0 <= i < |s| && s[i] == t[0];
    assert s[0].score >= s[i].score;
    assert t[0].score >= t[j].score;
    assert j == 0;
  }

  /** Equal heads leave equal multisets of what follows. */
  lemma SameTail(s: seq<Entry>, t: seq<Entry>)
    requires s != [] && t != [] && s[0] == t[0] && multiset(s) == multiset(t)
    ensures multiset(s[1..]) == multiset(t[1..])
  {
    assert s == [s[0]] + s[1..] && t == [t[0]] + t[1..];
    assert multiset(s) == multiset{s[0]} + multiset(s[1..]);
    assert multiset(t) == multiset{t[0]} + multiset(t[1..]);
    assert multiset(s[1..]) == multiset(s) - multiset{s[0]};
    assert multiset(t[1..]) == multiset(t) - multiset{t[0]};
  }

  /** Registering a higher score after one entry puts it first. */
  lemma SecondRegistration(list: seq<Entry>, a: Entry, b: Entry)
    requires a.score < b.score
    requires SortedDesc(list) && multiset(list) == multiset([a] + [b])
    ensures list == [b, a]
  {
    assert [a] + [b] == [a, b];
    assert multiset([a, b]) == multiset([b, a]);
    SortedWithDistinctScoresUnique(list, [b, a]);
  }

  /** Registering the lowest score of three after two sorted entries puts it last. */
  lemma ThirdRegistration(list: seq<Entry>, a: Entry, b: Entry, c: Entry)
    requires c.score < a.score < b.score
    requires SortedDesc(list) && multiset(list) == multiset([b, a] + [c])
    ensures list == [b, a, c]
  {
    assert [b, a] + [c] == [b, a, c];
    SortedWithDistinctScoresUnique(list, [b, a, c]);
  }

  /**
   * Registering 50, then 80, then 30 on an empty store leaves the list ordered
   * 80, 50, 30.
   */
  method ThreeRegistrations() returns (list: seq<Entry>)
    ensures list == [Entry(80, "BBB"), Entry(50, "AAA"), Entry(30, "CCC")]
  {
    var a, b, c := Entry(50, "AAA"), Entry(80, "BBB"), Entry(30, "CCC");
    list := AddEntry(None, a);
    assert list == [a];
    list := AddEntry(Some(list), b);
    SecondRegistration(list, a, b);
    list := AddEntry(Some(list), c);
    ThirdRegistration(list, a, b, c);
  }
}
