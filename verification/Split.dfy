/** `Split` of XLN/Core/Utility/StringTool.cpp. */
module Split {
  import opened Machine

  /** Where a run of a string begins and where it ends. */
  datatype Span = Span(left: nat, right: nat)

  /** The first position from `from` on that holds no delimiter; the length of the string stands for none. */
  function FirstNotOf(str: string, delims: string, from: nat): (n: nat)
    requires from <= |str|
    ensures from <= n <= |str| && (n < |str| ==> str[n] !in delims)
    ensures forall i | from <= i < n :: str[i] in delims
    decreases |str| - from
  {
    if from == |str| || str[from] !in delims then from else FirstNotOf(str, delims, from + 1)
  }

  function FirstOf(str: string, delims: string, from: nat): (n: nat)
    requires from <= |str|
    ensures from <= n <= |str| && (n < |str| ==> str[n] in delims)
    ensures forall i | from <= i < n :: str[i] !in delims
    decreases |str| - from
  {
    if from == |str| || str[from] in delims then from else FirstOf(str, delims, from + 1)
  }

  /** The runs between delimiters, from `from` on. */
  function Spans(str: string, delims: string, from: nat): seq<Span>
    requires from <= |str|
    decreases |str| - from
  {
    var left := FirstNotOf(str, delims, from);
    if left == |str| then []
    else
      var right := FirstOf(str, delims, left);
      [Span(left, right)] + Spans(str, delims, right)
  }

  function Piece(str: string, s: Span): string {
    if s.left <= s.right <= |str| then str[s.left..s.right] else ""
  }

  function Pieces(str: string, spans: seq<Span>): (r: seq<string>)
    ensures |r| == |spans| && forall i | 0 <= i < |r| :: r[i] == Piece(str, spans[i])
  {
    seq(|spans|, i requires 0 <= i < |spans| => Piece(str, spans[i]))
  }

  /** At most `maxSplits` of them; no limit where that is 0, and none either where the 32-bit count wraps round before
      it is exceeded. */
  function Limited(spans: seq<Span>, maxSplits: UInt32): seq<Span> {
    if maxSplits == 0 || maxSplits == UINT32_LIMIT - 1 || |spans| <= maxSplits then spans else spans[..maxSplits]
  }

  /** The pieces are the maximal runs of the string, the first ones if there is a limit. */
  ghost predicate IsSplit(vec: seq<string>, str: string, delims: string, maxSplits: UInt32) {
    exists spans: seq<Span> ::
      && Ascending(spans) && (forall s :: s in spans <==> MaximalRun(str, delims, s))
      && |vec| == (if 0 < maxSplits < UINT32_LIMIT - 1 && maxSplits < |spans| then maxSplits else |spans|)
      && forall i | 0 <= i < |vec| ::
           spans[i].left <= spans[i].right <= |str| && vec[i] == str[spans[i].left..spans[i].right]
  }

  method Split(str: string, delims: string, maxSplits: UInt32) returns (vec: seq<string>)
    ensures IsSplit(vec, str, delims, maxSplits)
    ensures vec == Pieces(str, Limited(Spans(str, delims, 0), maxSplits))
  {
    hide Spans, Counts, Pieces, IsSplit;
    vec := [];
    NothingCounted(str, maxSplits);
    ghost var all := Spans(str, delims, 0);
    SpansSkip(str, delims, 0);
    var left := FirstNotOf(str, delims, 0);
    var curSplit: UInt32 := 1;
    while left < |str| && (maxSplits == 0 || curSplit <= maxSplits)
      invariant left <= |str| && (left < |str| ==> str[left] !in delims)
      invariant |vec| <= |all| && all[|vec|..] == Spans(str, delims, left)
      invariant vec == Pieces(str, all[..|vec|])
      invariant Counts(curSplit, |vec|, maxSplits)
      decreases |str| - left
    {
      SpansFrom(str, delims, left);
      var right := FirstOf(str, delims, left);
      PieceAdded(str, all, |vec|, Span(left, right), Spans(str, delims, right));
      vec := vec + [str[left..right]];
      left := FirstNotOf(str, delims, right);
      SpansSkip(str, delims, right);
      OneMoreCounted(curSplit, |vec| - 1, maxSplits);
      curSplit := (curSplit + 1) % UINT32_LIMIT;
    }
    SpansFrom(str, delims, left);
    Counted(curSplit, |vec|, maxSplits);
    assert left == |str| ==> all[|vec|..] == [] && all[..|vec|] == all;
    PiecesAreSplit(str, delims, maxSplits);
  }

  /** The 32-bit count after `k` pieces, and how many pieces the loop has let pass. */
  ghost predicate Counts(curSplit: UInt32, k: nat, maxSplits: UInt32) {
    && curSplit == (k + 1) % UINT32_LIMIT
    && (maxSplits == 0 || maxSplits == UINT32_LIMIT - 1 || k <= maxSplits)
  }

  lemma NothingCounted(str: string, maxSplits: UInt32)
    ensures Counts(1, 0, maxSplits) && forall all: seq<Span> :: Pieces(str, all[..0]) == []
  {
  }

  lemma OneMoreCounted(curSplit: UInt32, k: nat, maxSplits: UInt32)
    requires Counts(curSplit, k, maxSplits) && (maxSplits == 0 || curSplit <= maxSplits)
    ensures Counts((curSplit + 1) % UINT32_LIMIT, k + 1, maxSplits)
  {
  }

  /** The count stops the loop exactly at the limit, and at 2^32 - 1 never. */
  lemma Counted(curSplit: UInt32, k: nat, maxSplits: UInt32)
    requires Counts(curSplit, k, maxSplits)
    ensures maxSplits != 0 && curSplit > maxSplits ==> maxSplits != UINT32_LIMIT - 1 && k == maxSplits
    ensures maxSplits == 0 || maxSplits == UINT32_LIMIT - 1 || k <= maxSplits
  {
  }

  lemma PieceAdded(str: string, all: seq<Span>, k: nat, s: Span, rest: seq<Span>)
    requires k <= |all| && all[k..] == [s] + rest && s.left <= s.right <= |str|
    ensures k < |all| && all[k + 1..] == rest
    ensures Pieces(str, all[..k + 1]) == Pieces(str, all[..k]) + [str[s.left..s.right]]
  {
    assert all[k] == all[k..][0];
    assert all[k + 1..] == all[k..][1..];
  }

  lemma SpansFrom(str: string, delims: string, left: nat)
    requires left <= |str| && (left < |str| ==> str[left] !in delims)
    ensures FirstNotOf(str, delims, left) == left
    ensures left == |str| ==> Spans(str, delims, left) == []
    ensures left < |str| ==> var right := FirstOf(str, delims, left);
                             left < right && Spans(str, delims, left) == [Span(left, right)] + Spans(str, delims, right)
  {
  }

  lemma SpansSkip(str: string, delims: string, from: nat)
    requires from <= |str|
    ensures Spans(str, delims, FirstNotOf(str, delims, from)) == Spans(str, delims, from)
  {
    SpansFrom(str, delims, FirstNotOf(str, delims, from));
  }

  // ---------- The runs are the maximal ones ----------

  /** A nonempty run without delimiters, with a delimiter or an end on both sides. */
  ghost predicate MaximalRun(str: string, delims: string, s: Span) {
    && s.left < s.right <= |str|
    && (forall i | s.left <= i < s.right :: str[i] !in delims)
    && (s.left == 0 || str[s.left - 1] in delims)
    && (s.right == |str| || str[s.right] in delims)
  }

  ghost predicate Ascending(spans: seq<Span>) {
    forall i, j | 0 <= i < j < |spans| :: spans[i].right < spans[j].left
  }

  /** From a place between runs on, the spans are exactly the maximal runs, in order. */
  lemma {:induction false} SpansAreMaximalRuns(str: string, delims: string, from: nat)
    requires from <= |str| && (from == 0 || from == |str| || str[from] in delims)
    ensures Ascending(Spans(str, delims, from))
    ensures forall s :: s in Spans(str, delims, from) <==> MaximalRun(str, delims, s) && from <= s.left
    decreases |str| - from
  {
    var left := FirstNotOf(str, delims, from);
    SpansSkip(str, delims, from);
    SpansFrom(str, delims, left);
    if left < |str| {
      var right := FirstOf(str, delims, left);
      SpansAreMaximalRuns(str, delims, right);
      forall s
        ensures s in Spans(str, delims, from) <==> MaximalRun(str, delims, s) && from <= s.left
      {
        if MaximalRun(str, delims, s) && from <= s.left < right {
          FirstRun(str, delims, s, from);
        }
      }
    } else {
      assert forall s | MaximalRun(str, delims, s) && from <= s.left :: str[s.left] in delims;
    }
  }

  /** The first run is the only one that begins before its end. */
  lemma FirstRun(str: string, delims: string, s: Span, from: nat)
    requires from <= |str| && MaximalRun(str, delims, s)
    requires var left := FirstNotOf(str, delims, from); left < |str| && from <= s.left < FirstOf(str, delims, left)
    ensures var left := FirstNotOf(str, delims, from); s == Span(left, FirstOf(str, delims, left))
  {
    var left := FirstNotOf(str, delims, from);
    var right := FirstOf(str, delims, left);
    assert str[s.left] !in delims;
    assert left <= s.left;
  }

  /** Without a limit `Split` gives every maximal run of `str` that has no delimiter, in order, and nothing else; with
      a limit below 2^32 - 1, the first ones. */
  lemma SplitGivesMaximalRuns(str: string, delims: string)
    ensures Ascending(Spans(str, delims, 0))
    ensures forall s :: s in Spans(str, delims, 0) <==> MaximalRun(str, delims, s)
    ensures forall n: UInt32 ::
              var spans := Spans(str, delims, 0);
              && Limited(spans, n) <= spans
              && |Limited(spans, n)| == if 0 < n < UINT32_LIMIT - 1 && n < |spans| then n else |spans|
  {
    SpansAreMaximalRuns(str, delims, 0);
  }

  lemma PiecesAreSplit(str: string, delims: string, maxSplits: UInt32)
    ensures IsSplit(Pieces(str, Limited(Spans(str, delims, 0), maxSplits)), str, delims, maxSplits)
  {
    hide Spans, Ascending, Limited;
    SplitGivesMaximalRuns(str, delims);
    var spans := Spans(str, delims, 0);
    var some := Limited(spans, maxSplits);
    forall i | 0 <= i < |some|
      ensures some[i] == spans[i] && MaximalRun(str, delims, spans[i])
    {
      assert spans[i] in spans;
    }
  }
}
