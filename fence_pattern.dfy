/**
 * The code-fence pattern ```(.*?)\n(.*?)``` matched with RegexOptions.Singleline, so `.` also
 * matches a newline and both groups are lazy. A match at index i needs "```" at i, a '\n' at
 * some nl >= i + 3 and "```" at some close >= nl + 1; the lazy groups settle on the first such
 * newline and then on the first closing fence after it. Regex.Matches reports the leftmost match,
 * then resumes scanning where that match ends.
 */
module FencePattern {
  import opened Wrappers

  /** Three backticks start at index i. */
  predicate TicksAt(s: string, i: int) {
    0 <= i && i + 3 <= |s| && s[i] == '`' && s[i + 1] == '`' && s[i + 2] == '`'
  }

  /** A line feed sits at index i. */
  predicate NewlineAt(s: string, i: int) {
    0 <= i < |s| && s[i] == '\n'
  }

  /** The first index at or after `from` where "```" starts. */
  function FindTicks(s: string, from: nat): (r: Option<nat>)
    decreases |s| - from
    ensures r.Some? ==> from <= r.value && TicksAt(s, r.value)
    ensures forall j :: from <= j && (r.None? || j < r.value) ==> !TicksAt(s, j)
  {
    if from + 3 > |s| then None
    else if TicksAt(s, from) then Some(from)
    else FindTicks(s, from + 1)
  }

  /** The first index at or after `from` holding '\n'. */
  function FindNewline(s: string, from: nat): (r: Option<nat>)
    decreases |s| - from
    ensures r.Some? ==> from <= r.value && NewlineAt(s, r.value)
    ensures forall j :: from <= j && (r.None? || j < r.value) ==> !NewlineAt(s, j)
  {
    if from >= |s| then None
    else if s[from] == '\n' then Some(from)
    else FindNewline(s, from + 1)
  }

  /**
   * One match: the opening fence at `start`, the newline that ends group 1 (the language) at
   * `newline`, the closing fence at `close`. Group 2 (the body) lies between newline and close.
   */
  datatype Fence = Fence(start: nat, newline: nat, close: nat) {
    /** match.Index + match.Length: the index just past the closing fence. */
    function End(): nat {
      close + 3
    }
  }

  /** The three positions are in order and the whole match lies inside s. */
  predicate InBounds(s: string, f: Fence) {
    f.start + 3 <= f.newline < f.close && f.close + 3 <= |s|
  }

  /** Some choice of the two groups lets the pattern match at index i (the backtracking semantics). */
  ghost predicate CanMatchAt(s: string, i: int) {
    TicksAt(s, i) && exists nl, c :: i + 3 <= nl < c && NewlineAt(s, nl) && TicksAt(s, c)
  }

  /** `f` is the match the lazy groups choose: the shortest group 1, then the shortest group 2. */
  ghost predicate IsLazyMatch(s: string, f: Fence) {
    && InBounds(s, f)
    && TicksAt(s, f.start) && NewlineAt(s, f.newline) && TicksAt(s, f.close)
    && (forall j :: f.start + 3 <= j < f.newline ==> !NewlineAt(s, j))
    && (forall j :: f.newline < j < f.close ==> !TicksAt(s, j))
  }

  /** No match of the pattern starts in [lo, hi). */
  ghost predicate NoMatchIn(s: string, lo: int, hi: int) {
    forall j :: lo <= j < hi ==> !CanMatchAt(s, j)
  }

  /** The attempt of the regex engine at index i; a match it finds lies inside s. */
  function MatchAt(s: string, i: nat): (r: Option<Fence>)
    ensures r.Some? ==> r.value.start == i && InBounds(s, r.value)
  {
    if !TicksAt(s, i) then None
    else match FindNewline(s, i + 3)
      case None => None
      case Some(nl) =>
        match FindTicks(s, nl + 1)
        case None => None
        case Some(c) => Some(Fence(i, nl, c))
  }

  /** The engine finds a match at i exactly when the pattern can match there, and it is the lazy one. */
  lemma MatchAtSemantics(s: string, i: nat)
    ensures MatchAt(s, i).Some? <==> CanMatchAt(s, i)
    ensures MatchAt(s, i).Some? ==> IsLazyMatch(s, MatchAt(s, i).value)
  {
  }

  /** A lazy match is a match, and it is the one the engine finds at its start. */
  lemma LazyMatchIsFound(s: string, f: Fence)
    requires IsLazyMatch(s, f)
    ensures CanMatchAt(s, f.start) && MatchAt(s, f.start) == Some(f)
  {
  }

  /** The leftmost match starting at or after p (Regex.Match(s, p)); it lies inside s. */
  function FindFence(s: string, p: nat): (r: Option<Fence>)
    requires p <= |s|
    decreases |s| - p
    ensures r.Some? ==> p <= r.value.start && InBounds(s, r.value)
  {
    if p == |s| then None
    else match MatchAt(s, p)
      case Some(f) => Some(f)
      case None => FindFence(s, p + 1)
  }

  /** FindFence returns the lazy match that starts leftmost at or after p, or None if there is none. */
  lemma {:induction false} FindFenceIsLeftmost(s: string, p: nat)
    requires p <= |s|
    decreases |s| - p
    ensures FindFence(s, p).Some? ==> CanMatchAt(s, FindFence(s, p).value.start) && IsLazyMatch(s, FindFence(s, p).value)
    ensures FindFence(s, p).None? ==> NoMatchIn(s, p, |s|)
    ensures FindFence(s, p).Some? ==> NoMatchIn(s, p, FindFence(s, p).value.start)
  {
    if p < |s| {
      MatchAtSemantics(s, p);
      if MatchAt(s, p).None? {
        FindFenceIsLeftmost(s, p + 1);
      }
    }
  }

  /**
   * fs can be scanned from p: each match lies inside s and starts at or after the end of the
   * previous one (p for the first), and p itself stays inside s.
   */
  predicate Sequential(s: string, p: nat, fs: seq<Fence>)
    decreases |fs|
  {
    if fs == [] then p <= |s|
    else p <= fs[0].start && InBounds(s, fs[0]) && Sequential(s, fs[0].End(), fs[1..])
  }

  /** Every match of a sequential list lies inside s. */
  lemma {:induction false} SequentialInBounds(s: string, p: nat, fs: seq<Fence>)
    requires Sequential(s, p, fs)
    decreases |fs|
    ensures forall k :: 0 <= k < |fs| ==> InBounds(s, fs[k])
  {
    if fs != [] {
      SequentialInBounds(s, fs[0].End(), fs[1..]);
      forall k | 1 <= k < |fs|
        ensures InBounds(s, fs[k])
      {
        assert fs[k] == fs[1..][k - 1];
      }
    }
  }

  /** Regex.Matches: the leftmost match at or after p, then the matches after its end. */
  function AllFences(s: string, p: nat): (r: seq<Fence>)
    requires p <= |s|
    decreases |s| - p
    ensures Sequential(s, p, r)
  {
    match FindFence(s, p)
    case None => []
    case Some(f) => [f] + AllFences(s, f.End())
  }

  /**
   * fs is the sequence of leftmost, non-overlapping lazy matches from p on: its first match is a
   * lazy match at or after p with no match starting before it, the rest is such a sequence from
   * the end of that match, and when fs is empty no match starts anywhere from p on.
   */
  ghost predicate LeftmostMatches(s: string, p: nat, fs: seq<Fence>)
    decreases |fs|
  {
    if fs == [] then NoMatchIn(s, p, |s|)
    else
      && p <= fs[0].start && IsLazyMatch(s, fs[0]) && NoMatchIn(s, p, fs[0].start)
      && LeftmostMatches(s, fs[0].End(), fs[1..])
  }

  /** AllFences finds the leftmost non-overlapping lazy matches. */
  lemma {:induction false} AllFencesAreLeftmost(s: string, p: nat)
    requires p <= |s|
    decreases |s| - p
    ensures LeftmostMatches(s, p, AllFences(s, p))
  {
    FindFenceIsLeftmost(s, p);
    match FindFence(s, p)
    case None =>
    case Some(f) =>
      AllFencesAreLeftmost(s, f.End());
      assert AllFences(s, p)[1..] == AllFences(s, f.End());
  }

  /** A lazy match with no match before it (from p on) is the one FindFence returns. */
  lemma FirstMatchIsFound(s: string, p: nat, f: Fence)
    requires p <= f.start && IsLazyMatch(s, f) && NoMatchIn(s, p, f.start)
    ensures FindFence(s, p) == Some(f)
  {
    LazyMatchIsFound(s, f);
    FindFenceIsLeftmost(s, p);
    var r := FindFence(s, p);
    assert r.Some?;
    var g := r.value;
    LazyMatchIsFound(s, g);
    assert g.start == f.start;
  }

  /** And they are the only such sequence: a scan that meets LeftmostMatches is Regex.Matches. */
  lemma {:induction false} LeftmostMatchesUnique(s: string, p: nat, fs: seq<Fence>)
    requires p <= |s|
    requires LeftmostMatches(s, p, fs)
    decreases |s| - p
    ensures fs == AllFences(s, p)
  {
    FindFenceIsLeftmost(s, p);
    if fs != [] {
      var f := fs[0];
      FirstMatchIsFound(s, p, f);
      LeftmostMatchesUnique(s, f.End(), fs[1..]);
    }
  }
}
