/** The glob matcher of XLN/Core/Utility/StringTool.cpp (StringUtil::Match).

    A C++ `char` is modelled by its numeric value, so the same proof covers platforms where `char`
    is signed and platforms where it is not; the value 0 is the terminator of a C string.

    Three descriptions of the same routine are connected here:
    - `Match`, the pointer code itself, with indices for the pointers `pat` and `str`;
    - `Matches`, what that code accepts on every pattern, also on odd ones;
    - `InLanguage` over `Tokens`, the language a reader of a glob pattern has in mind. */
module Glob {
  import opened Wrappers
  import Sequences

  type Chr = int
  type Text = seq<Chr>

  const NUL: Chr := 0
  const STAR: Chr := '*' as int
  const QUESTION: Chr := '?' as int
  const OPEN: Chr := '[' as int
  const CLOSE: Chr := ']' as int
  const DASH: Chr := '-' as int
  const BACKSLASH: Chr := '\\' as int

  // ---------- C strings ----------

  /** What `c_str()` shows of a string: everything before the first NUL. */
  function CStr(s: Text): (r: Text)
    ensures NUL !in r
    ensures r <= s && (r == s || s[|r|] == NUL)
  {
    if s == [] || s[0] == NUL then [] else [s[0]] + CStr(s[1..])
  }

  lemma CStrOfPlain(s: Text)
    requires NUL !in s
    ensures CStr(s) == s
  {
    if s != [] {
      assert s[0] in s;
    }
  }

  /** `tolower` in the default locale, applied to each character. */
  function Lower(s: Text): (r: Text)
    ensures |r| == |s|
  {
    seq(|s|, i requires 0 <= i < |s| => if 'A' as int <= s[i] <= 'Z' as int then s[i] + 32 else s[i])
  }

  function Folded(s: Text, caseSensitive: bool): (r: Text)
    ensures |r| == |s|
  {
    if caseSensitive then s else Lower(s)
  }

  /** The upper-case and the lower-case form of one of the 26 letters. */
  predicate CasesOf(upper: Chr, lower: Chr) {
    'A' as int <= upper <= 'Z' as int && lower - 'a' as int == upper - 'A' as int
  }

  predicate SameLetter(c: Chr, d: Chr) {
    c == d || CasesOf(c, d) || CasesOf(d, c)
  }

  /** Texts fold to the same one exactly if they differ at most in the case of letters, and the folded one has no
      upper-case letter. */
  lemma FoldedMeans(s: Text, t: Text)
    ensures Folded(s, true) == s
    ensures Folded(s, false) == Folded(t, false) <==>
            |s| == |t| && forall i | 0 <= i < |s| :: SameLetter(s[i], t[i])
    ensures forall i | 0 <= i < |s| ::
              SameLetter(s[i], Folded(s, false)[i]) && !('A' as int <= Folded(s, false)[i] <= 'Z' as int)
  {
    if |s| == |t| && forall i | 0 <= i < |s| :: SameLetter(s[i], t[i]) {
      assert forall i | 0 <= i < |s| :: Lower(s)[i] == Lower(t)[i];
    }
    if Lower(s) == Lower(t) {
      assert forall i | 0 <= i < |s| :: Lower(s)[i] == Lower(t)[i] ==> SameLetter(s[i], t[i]);
    }
  }

  // ---------- The language of a pattern ----------

  datatype Range = Range(first: Chr, last: Chr)

  datatype Token = Star | Any | Lit(c: Chr) | Class(ranges: seq<Range>) | Never

  /** A range may be written in either direction. */
  predicate Within(c: Chr, r: Range) {
    r.first <= c <= r.last || r.last <= c <= r.first
  }

  predicate Accepts(t: Token, c: Chr) {
    match t
    case Any => true
    case Lit(d) => c == d
    case Class(rs) => exists k | 0 <= k < |rs| :: Within(c, rs[k])
    case Star => false
    case Never => false
  }

  ghost predicate InLanguage(ts: seq<Token>, s: Text) {
    if ts == [] then s == []
    else if ts[0].Star? then exists k | 0 <= k <= |s| :: InLanguage(ts[1..], s[k..])
    else s != [] && Accepts(ts[0], s[0]) && InLanguage(ts[1..], s[1..])
  }

  /** The ranges of a bracket expression whose body starts at `i`. A range cut off by the end of the
      pattern stands for its first character alone, and nothing follows it. */
  function Ranges(p: Text, i: nat): seq<Range>
    decreases |p| - i
  {
    if i >= |p| || p[i] == CLOSE then []
    else if i + 1 < |p| && p[i + 1] == DASH then
      if i + 2 == |p| then [Range(p[i], p[i])]
      else [Range(p[i], p[i + 2])] + Ranges(p, i + 3)
    else [Range(p[i], p[i])] + Ranges(p, i + 1)
  }

  /** Where the bracket expression ends when brackets used as range ends do not close it:
      the index of its own `]`, or the length of the pattern when it has none. */
  function OwnClose(p: Text, i: nat): (e: nat)
    requires i <= |p|
    ensures i <= e <= |p| && (e < |p| ==> p[e] == CLOSE)
    decreases |p| - i
  {
    if i == |p| || p[i] == CLOSE then i
    else if i + 1 < |p| && p[i + 1] == DASH then
      if i + 2 == |p| then |p| else OwnClose(p, i + 3)
    else OwnClose(p, i + 1)
  }

  /** The first `]` at or after `i`, or the length of the pattern. */
  function FirstClose(p: Text, i: nat): (e: nat)
    requires i <= |p|
    ensures i <= e <= |p| && (e < |p| ==> p[e] == CLOSE)
    ensures forall k | i <= k < e :: p[k] != CLOSE
    decreases |p| - i
  {
    if i == |p| || p[i] == CLOSE then i else FirstClose(p, i + 1)
  }

  /** The pattern left after a bracket expression closed at `e`; one never closed reaches to the end. */
  function After(p: Text, e: nat): Text
    requires e <= |p|
  {
    if e == |p| then [] else p[e + 1..]
  }

  function FirstToken(p: Text): Token
    requires p != []
  {
    if p[0] == STAR then Star
    else if p[0] == QUESTION then Any
    else if p[0] == OPEN then Class(Ranges(p, 1))
    else if p[0] == BACKSLASH then if |p| == 1 then Never else Lit(p[1])
    else Lit(p[0])
  }

  /** The pattern left after its first token. */
  function Rest(p: Text): (rest: Text)
    requires p != []
    ensures |rest| < |p|
  {
    if p[0] == OPEN then After(p, OwnClose(p, 1))
    else if p[0] == BACKSLASH && |p| > 1 then p[2..]
    else p[1..]
  }

  function Tokens(p: Text): seq<Token>
    decreases |p|
  {
    if p == [] then [] else [FirstToken(p)] + Tokens(Rest(p))
  }

  // ---------- What the code accepts ----------

  /** Where in a bracket expression the first range holding `c` begins, if one does. */
  function FirstHit(p: Text, i: nat, c: Chr): (r: Option<nat>)
    ensures r.Some? ==> i <= r.value < |p|
    decreases |p| - i
  {
    if i >= |p| || p[i] == CLOSE then None
    else if p[i] == c then Some(i)
    else if i + 1 < |p| && p[i + 1] == DASH then
      if i + 2 == |p| then None
      else if Within(c, Range(p[i], p[i + 2])) then Some(i)
      else FirstHit(p, i + 3, c)
    else FirstHit(p, i + 1, c)
  }

  /** The pattern left after its first token has consumed `c`, when that token consumes `c`.
      The search for the closing bracket starts at the element that was hit. */
  function Residual(p: Text, c: Chr): (r: Option<Text>)
    requires p != [] && p[0] != STAR
    ensures r.Some? ==> |r.value| < |p|
  {
    if p[0] == QUESTION then Some(p[1..])
    else if p[0] == OPEN then
      match FirstHit(p, 1, c)
      case None => None
      case Some(at) => Some(After(p, FirstClose(p, at)))
    else if p[0] == BACKSLASH then if |p| == 1 || p[1] != c then None else Some(p[2..])
    else if p[0] == c then Some(p[1..]) else None
  }

  ghost predicate Matches(p: Text, s: Text)
    decreases |p|
  {
    if p == [] then s == []
    else if p[0] == STAR then exists k | 0 <= k <= |s| :: Matches(p[1..], s[k..])
    else s != [] && Residual(p, s[0]).Some? && Matches(Residual(p, s[0]).value, s[1..])
  }

  // ---------- The code ----------

  /** The bracket branch of `Match`: `i` is just past the `[`, `c` is the character to test.
      On a hit `next` is where `pat` stands after the jump to `match:` has advanced it. */
  method MatchClass(p: Text, i: nat, c: Chr) returns (hit: bool, next: nat)
    requires i <= |p| && NUL !in p
    ensures hit <==> FirstHit(p, i, c).Some?
    ensures hit ==> i <= next <= |p| && p[next..] == After(p, FirstClose(p, FirstHit(p, i, c).value))
  {
    hide FirstHit, FirstClose, Within;
    var pat := i;
    while true
      invariant i <= pat <= |p|
      invariant FirstHit(p, i, c) == FirstHit(p, pat, c)
      decreases |p| - pat
    {
      HitStep(p, pat, c);
      if pat == |p| || p[pat] == CLOSE {
        return false, pat;
      }
      if p[pat] == c {
        break;
      }
      if pat + 1 < |p| && p[pat + 1] == DASH {
        if pat + 2 == |p| {
          return false, pat;
        }
        var c2 := p[pat + 2];
        if p[pat] <= c && c2 >= c {
          break;
        }
        if p[pat] >= c && c2 <= c {
          break;
        }
        pat := pat + 2;
      }
      pat := pat + 1;
    }
    ghost var start := pat;
    while pat < |p| && p[pat] != CLOSE
      invariant start <= pat <= |p|
      invariant FirstClose(p, start) == FirstClose(p, pat)
    {
      CloseStep(p, pat);
      pat := pat + 1;
    }
    CloseStep(p, pat);
    return true, if pat == |p| then pat else pat + 1;
  }

  lemma HitStep(p: Text, i: nat, c: Chr)
    requires i <= |p|
    ensures i == |p| || p[i] == CLOSE ==> FirstHit(p, i, c) == None
    ensures i < |p| && p[i] != CLOSE ==>
              if p[i] == c then FirstHit(p, i, c) == Some(i)
              else if i + 1 < |p| && p[i + 1] == DASH then
                if i + 2 == |p| then FirstHit(p, i, c) == None
                else if p[i] <= c <= p[i + 2] || p[i + 2] <= c <= p[i] then FirstHit(p, i, c) == Some(i)
                else FirstHit(p, i, c) == FirstHit(p, i + 3, c)
              else FirstHit(p, i, c) == FirstHit(p, i + 1, c)
  {
  }

  lemma CloseStep(p: Text, i: nat)
    requires i <= |p|
    ensures FirstClose(p, i) == if i == |p| || p[i] == CLOSE then i else FirstClose(p, i + 1)
  {
  }

  /** The loop after a `*`: tries the rest of the pattern at every suffix of the string. */
  method MatchAnywhere(pat: Text, str: Text) returns (b: bool)
    requires NUL !in pat && NUL !in str
    ensures b <==> exists k | 0 <= k <= |str| :: Matches(pat, str[k..])
    decreases |pat|, 1
  {
    var k := 0;
    while true
      invariant k <= |str|
      invariant forall i | 0 <= i < k :: !Matches(pat, str[i..])
      decreases |str| - k
    {
      CStrOfPlain(str[k..]);
      CStrOfPlain(pat);
      b := Match(str[k..], pat);
      if b || k == |str| {
        return;
      }
      k := k + 1;
    }
  }

  method Match(parseStr: Text, pattern: Text, caseSensitive: bool := true) returns (b: bool)
    ensures b <==> Matches(CStr(Folded(pattern, caseSensitive)), CStr(Folded(parseStr, caseSensitive)))
    decreases |pattern|, 0
  {
    // a pointer into a C string is modelled by the text from there to the terminator
    var pat := CStr(Folded(pattern, caseSensitive));
    var str := CStr(Folded(parseStr, caseSensitive));
    ghost var result := Matches(pat, str);
    while true
      invariant |pat| <= |pattern| && NUL !in pat && NUL !in str
      invariant result <==> Matches(pat, str)
      decreases |pat|
    {
      if pat == [] {
        return str == [];
      }
      if str == [] && pat[0] != STAR {
        return false;
      }
      if pat[0] == STAR {
        pat := pat[1..];
        if pat == [] {
          assert Matches(pat, str[|str|..]);
          return true;
        }
        b := MatchAnywhere(pat, str);
        return;
      }
      if pat[0] == OPEN {
        var hit, next := MatchClass(pat, 1, str[0]);
        if !hit {
          return false;
        }
        pat := pat[next..];
      } else if pat[0] == QUESTION {
        pat := pat[1..];
      } else {
        if pat[0] == BACKSLASH {
          pat := pat[1..];
          if pat == [] {
            return false;
          }
        }
        if pat[0] != str[0] {
          return false;
        }
        pat := pat[1..];
      }
      str := str[1..];
    }
  }

  // ---------- The code accepts the language ----------

  /** A bracket expression in which no `]` ends a range, except perhaps as the pattern's last character. */
  predicate PlainClass(p: Text)
    requires p != []
  {
    || FirstClose(p, 1) == OwnClose(p, 1)
    || FirstClose(p, 1) + 1 == OwnClose(p, 1) == |p|
  }

  predicate PlainPattern(p: Text)
    decreases |p|
  {
    p == [] || ((p[0] == OPEN ==> PlainClass(p)) && PlainPattern(Rest(p)))
  }

  lemma {:induction false} HitIffAccepted(p: Text, i: nat, c: Chr)
    ensures FirstHit(p, i, c).Some? <==> Accepts(Class(Ranges(p, i)), c)
    decreases |p| - i
  {
    var rs := Ranges(p, i);
    if i < |p| && p[i] != CLOSE {
      var next := if i + 1 < |p| && p[i + 1] == DASH then i + 3 else i + 1;
      HitIffAccepted(p, next, c);
      assert rs[1..] == Ranges(p, next);
      assert Accepts(Class(rs), c) <==> Within(c, rs[0]) || Accepts(Class(rs[1..]), c) by {
        assert forall k | 0 < k < |rs| :: rs[1..][k - 1] == rs[k];
      }
    }
  }

  lemma {:induction false} HitClose(p: Text, i: nat, c: Chr)
    requires i <= |p| && FirstHit(p, i, c).Some?
    ensures FirstClose(p, i) <= FirstClose(p, FirstHit(p, i, c).value) <= OwnClose(p, i)
    decreases |p| - i
  {
    var at := FirstHit(p, i, c).value;
    if at != i {
      var next := if i + 1 < |p| && p[i + 1] == DASH then i + 3 else i + 1;
      HitClose(p, next, c);
    }
    assert at <= OwnClose(p, i);
    FirstCloseLeast(p, i, at);
    FirstCloseLeast(p, at, OwnClose(p, i));
  }

  lemma FirstCloseLeast(p: Text, i: nat, j: nat)
    requires i <= j <= |p|
    ensures FirstClose(p, i) <= FirstClose(p, j)
    ensures j == |p| || p[j] == CLOSE ==> FirstClose(p, i) <= j
  {
  }

  /** Exactly when every character of a bracket expression is followed by what a reader expects. */
  lemma ClassResidual(p: Text)
    requires p != [] && p[0] == OPEN
    ensures PlainClass(p) <==>
            forall c :: Residual(p, c).Some? ==> Residual(p, c) == Some(After(p, OwnClose(p, 1)))
  {
    if PlainClass(p) {
      forall c | Residual(p, c).Some?
        ensures Residual(p, c) == Some(After(p, OwnClose(p, 1)))
      {
        HitClose(p, 1, c);
      }
    } else {
      FirstCloseLeast(p, 1, OwnClose(p, 1));
      assert FirstHit(p, 1, p[1]) == Some(1);
      assert |Residual(p, p[1]).value| > |After(p, OwnClose(p, 1))|;
    }
  }

  /** The main theorem: on plain patterns the code accepts exactly the language of the pattern. */
  lemma {:induction false} MatchesIsLanguage(p: Text, s: Text)
    requires PlainPattern(p)
    ensures Matches(p, s) <==> InLanguage(Tokens(p), s)
    decreases |p|
  {
    if p == [] {
    } else if p[0] == STAR {
      forall k | 0 <= k <= |s|
        ensures Matches(p[1..], s[k..]) <==> InLanguage(Tokens(p[1..]), s[k..])
      {
        MatchesIsLanguage(p[1..], s[k..]);
      }
      assert Tokens(p)[1..] == Tokens(p[1..]);
    } else if s != [] {
      ResidualIsRest(p, s[0]);
      MatchesIsLanguage(Rest(p), s[1..]);
      assert Tokens(p)[1..] == Tokens(Rest(p));
    }
  }

  lemma ResidualIsRest(p: Text, c: Chr)
    requires p != [] && p[0] != STAR && (p[0] == OPEN ==> PlainClass(p))
    ensures Residual(p, c) == if Accepts(FirstToken(p), c) then Some(Rest(p)) else None
  {
    if p[0] == OPEN {
      HitIffAccepted(p, 1, c);
      ClassResidual(p);
    }
  }

  /** Why the theorem asks for plain patterns: `[a-]]` is read as the class from `]` to `a`, yet the code
      takes the bracket that ends the range for the closing one and wants a literal `]` after it. */
  lemma BracketAsRangeEnd()
    ensures var p := [OPEN, 'a' as int, DASH, CLOSE, CLOSE];
            var s := ['_' as int];
            !PlainPattern(p) && InLanguage(Tokens(p), s) && !Matches(p, s) && Matches(p, s + [CLOSE])
  {
    var p := [OPEN, 'a' as int, DASH, CLOSE, CLOSE];
    var s := ['_' as int];
    assert FirstHit(p, 1, s[0]) == Some(1);
    assert OwnClose(p, 4) == 4 && Ranges(p, 4) == [];
    assert Ranges(p, 1) == [Range('a' as int, CLOSE)];
    assert FirstClose(p, 3) == 3 && FirstClose(p, 2) == 3 && FirstClose(p, 1) == 3;
    assert Residual(p, s[0]) == Some([CLOSE]);
    assert Within(s[0], Ranges(p, 1)[0]);
    assert Rest(p) == [] && Tokens(p) == [Class(Ranges(p, 1))];
    assert !Matches([CLOSE], []);
    assert Residual([CLOSE], CLOSE) == Some([]);
    assert Matches([CLOSE], [CLOSE]) by {
      assert Matches([], []);
    }
    assert (s + [CLOSE])[1..] == [CLOSE] && s[1..] == [];
    assert !Matches(p, s);
    assert Matches(p, s + [CLOSE]);
  }

  // ---------- And accepts it only on plain patterns ----------

  /** Every token accepts some character: no bracket expression is empty and no backslash is left over. */
  predicate Fulfillable(p: Text)
    decreases |p|
  {
    p == [] || (FirstFulfillable(p) && Fulfillable(Rest(p)))
  }

  predicate FirstFulfillable(p: Text)
    requires p != []
  {
    (p[0] == OPEN ==> Ranges(p, 1) != []) && (p[0] == BACKSLASH ==> |p| > 1)
  }

  /** Where a `]` ends a range in a closed bracket expression, the expression holds no `[`, or does not end in `-`: so
      no other bracket expression that the code finds in there reaches beyond its end. */
  predicate SteadyClasses(p: Text)
    decreases |p|
  {
    p == [] || (SteadyClass(p) && SteadyClasses(Rest(p)))
  }

  predicate SteadyClass(p: Text)
    requires p != []
  {
    p[0] == OPEN && !PlainClass(p) && OwnClose(p, 1) < |p| ==> Contained(p[1..], OwnClose(p, 1) - 1)
  }

  /** No bracket expression that begins before `e` reaches beyond the `]` at `e`. */
  predicate Contained(t: Text, e: nat)
    requires e <= |t|
  {
    OPEN !in t[..e] || (e > 0 && t[e - 1] != DASH)
  }

  /** A character that the first token accepts. */
  function ExampleChar(p: Text): (c: Chr)
    requires p != [] && p[0] != STAR && FirstFulfillable(p)
    ensures Accepts(FirstToken(p), c) && (p[0] == OPEN ==> |p| > 1 && c == p[1])
  {
    if p[0] == OPEN then
      assert Within(p[1], Ranges(p, 1)[0]);
      p[1]
    else if p[0] == BACKSLASH then p[1]
    else p[0]
  }

  /** The number of tokens that take a character. */
  function Singles(p: Text): nat
    decreases |p|
  {
    if p == [] then 0 else Singles(Rest(p)) + if p[0] == STAR then 0 else 1
  }

  /** A shortest string of the language: nothing for a star, the first character of each bracket expression. */
  function Shortest(p: Text): (w: Text)
    requires Fulfillable(p)
    ensures |w| == Singles(p)
    decreases |p|
  {
    if p == [] then [] else (if p[0] == STAR then [] else [ExampleChar(p)]) + Shortest(Rest(p))
  }

  lemma {:induction false} ShortestInLanguage(p: Text)
    requires Fulfillable(p)
    ensures InLanguage(Tokens(p), Shortest(p))
    decreases |p|
  {
    if p != [] {
      hide OwnClose, Ranges;
      ShortestInLanguage(Rest(p));
      var w, v := Shortest(p), Shortest(Rest(p));
      assert Tokens(p)[1..] == Tokens(Rest(p));
      if p[0] == STAR {
        assert w == v && w[0..] == w;
      } else {
        assert w[1..] == v;
      }
    }
  }

  // ---------- A class closed early ----------

  /** Seen from anywhere before it, a `]` closes a bracket expression unless it ends a range. */
  lemma {:induction false} ClosesBy(t: Text, i: nat, e: nat)
    requires i <= e < |t| && t[e] == CLOSE && (e > 0 ==> t[e - 1] != DASH)
    ensures OwnClose(t, i) <= e
    decreases |t| - i
  {
    if i < e && t[i] != CLOSE {
      ClosesBy(t, if t[i + 1] == DASH then i + 3 else i + 1, e);
    }
  }

  /** From whatever stands before a `]`, what the code accepts uses up a character at least, and what follows the `]`
      accepts the rest. */
  lemma {:induction false} BeyondClose(t: Text, e: nat, w: Text) returns (k: nat)
    requires e < |t| && t[e] == CLOSE && Contained(t, e) && Matches(t, w)
    ensures 1 <= k <= |w| && Matches(t[e + 1..], w[k..])
    decreases |t|
  {
    if t[0] == STAR {
      var j :| 0 <= j <= |w| && Matches(t[1..], w[j..]);
      k := Onward(t, 1, e, w, j);
    } else {
      var n := Consumed(t, e, w);
      if n == e + 1 {
        k := 1;
      } else {
        k := Onward(t, n, e, w, 1);
      }
    }
  }

  /** The same from `n` on, where `j` characters have been used up before. */
  lemma {:induction false} Onward(t: Text, n: nat, e: nat, w: Text, j: nat) returns (k: nat)
    requires 0 < n <= e < |t| && t[e] == CLOSE && Contained(t, e) && j <= |w| && Matches(t[n..], w[j..])
    ensures j + 1 <= k <= |w| && Matches(t[e + 1..], w[k..])
    decreases |t|, 0
  {
    hide Matches;
    ContainedFrom(t, n, e);
    var m := BeyondClose(t[n..], e - n, w[j..]);
    k := j + m;
    assert t[n..][e - n + 1..] == t[e + 1..] && w[j..][m..] == w[k..];
  }

  lemma ContainedFrom(t: Text, n: nat, e: nat)
    requires n <= e < |t| && Contained(t, e)
    ensures Contained(t[n..], e - n)
  {
    assert forall c | c in t[n..][..e - n] :: c in t[..e];
    if n == e {
      assert t[n..][..0] == [];
    }
  }

  /** A first token that is not a star ends before the `]` or with it. */
  lemma Consumed(t: Text, e: nat, w: Text) returns (n: nat)
    requires e < |t| && t[e] == CLOSE && Contained(t, e) && t[0] != STAR && Matches(t, w)
    ensures 0 < n <= e + 1 && w != [] && Matches(t[n..], w[1..])
  {
    if t[0] == OPEN {
      assert OPEN in t[..e];
      ClosesBy(t, 1, e);
      HitClose(t, 1, w[0]);
      n := FirstClose(t, FirstHit(t, 1, w[0]).value) + 1;
    } else if t[0] == BACKSLASH {
      n := 2;
    } else {
      n := 1;
    }
  }

  /** Wherever a class is taken to be closed early, more characters are used up than the class itself accepts. */
  lemma EarlyClose(p: Text, f: nat, w: Text) returns (k: nat)
    requires p != [] && p[0] == OPEN && SteadyClass(p) && !PlainClass(p)
    requires 1 <= f < OwnClose(p, 1) < |p| && Matches(p[f + 1..], w)
    ensures 1 <= k <= |w| && Matches(Rest(p), w[k..])
  {
    hide Matches, PlainClass, Contained, OwnClose;
    var e := OwnClose(p, 1);
    Sequences.DropTwice(p, 1, f);
    Sequences.DropTwice(p, f + 1, e - f);
    ContainedFrom(p[1..], f, e - 1);
    k := BeyondClose(p[f + 1..], e - f - 1, w);
  }

  lemma ClassStep(p: Text, w: Text) returns (f: nat)
    requires p != [] && p[0] == OPEN && Matches(p, w)
    ensures w != [] && 1 <= f <= OwnClose(p, 1) && (f < |p| ==> Matches(p[f + 1..], w[1..]))
  {
    HitClose(p, 1, w[0]);
    f := FirstClose(p, FirstHit(p, 1, w[0]).value);
  }

  /** A first token that is a bracket expression takes a character, and leaves at least the text after it. */
  lemma ClassTakesOne(p: Text, w: Text) returns (n: nat)
    requires p != [] && p[0] == OPEN && SteadyClass(p) && !PlainClass(p) && Matches(p, w) && OwnClose(p, 1) < |p|
    ensures 1 <= n <= |w| && Matches(Rest(p), w[n..])
  {
    hide Matches, PlainClass, SteadyClass, FirstHit, FirstClose;
    var f := ClassStep(p, w);
    if f < OwnClose(p, 1) {
      var k := EarlyClose(p, f, w[1..]);
      n := 1 + k;
      assert w[1..][k..] == w[n..];
    } else {
      n := 1;
    }
  }

  /** The code accepts no string shorter than a shortest one of the language. */
  lemma {:induction false} NotShorter(p: Text, w: Text)
    requires SteadyClasses(p) && Matches(p, w)
    ensures Singles(p) <= |w|
    decreases |p|
  {
    if p != [] {
      hide PlainClass, SteadyClass, FirstToken, OwnClose;
      if p[0] == STAR {
        var k :| 0 <= k <= |w| && Matches(p[1..], w[k..]);
        NotShorter(p[1..], w[k..]);
      } else if p[0] == OPEN && !PlainClass(p) {
        if OwnClose(p, 1) < |p| {
          var n := ClassTakesOne(p, w);
          NotShorter(Rest(p), w[n..]);
        } else {
          NothingAfterUnclosed(p);
        }
      } else {
        ResidualIsRest(p, w[0]);
        hide Residual;
        NotShorter(Rest(p), w[1..]);
      }
    }
  }

  lemma NothingAfterUnclosed(p: Text)
    requires p != [] && p[0] == OPEN && OwnClose(p, 1) == |p|
    ensures Rest(p) == [] && Singles(p) == 1 && Tokens(p) == [Class(Ranges(p, 1))]
  {
  }

  /** With the first character of a bracket expression that is not plain the code goes on where it is first closed. */
  lemma EarlyStep(p: Text, w: Text)
    requires p != [] && p[0] == OPEN && Ranges(p, 1) != [] && !PlainClass(p) && |p| > 1
    ensures var f := FirstClose(p, 1);
            1 <= f < OwnClose(p, 1) && f < |p| && (OwnClose(p, 1) == |p| ==> f + 1 < |p|)
            && (Matches(p, [p[1]] + w) <==> Matches(p[f + 1..], w))
  {
    var s := [p[1]] + w;
    assert s[1..] == w;
    assert FirstHit(p, 1, p[1]) == Some(1);
    FirstCloseLeast(p, 1, OwnClose(p, 1));
  }

  // ---------- Strings that show the difference ----------

  predicate AllStars(t: Text) {
    forall i | 0 <= i < |t| :: t[i] == STAR
  }

  /** The first bracket expression that is not plain is never closed, and after its early close only stars are left. */
  predicate StarTail(p: Text)
    decreases |p|
  {
    p != [] &&
    if p[0] == OPEN && !PlainClass(p) then
      OwnClose(p, 1) == |p| && FirstClose(p, 1) < |p| && AllStars(p[FirstClose(p, 1) + 1..])
    else StarTail(Rest(p))
  }

  lemma {:induction false} OnlyStarsAcceptNothing(t: Text)
    requires Matches(t, [])
    ensures AllStars(t)
  {
    if t != [] {
      OnlyStarsAcceptNothing(t[1..]);
      assert forall i | 0 < i < |t| :: t[i] == t[1..][i - 1];
    }
  }

  lemma {:induction false} StarsAcceptAll(t: Text, w: Text)
    requires t != [] && AllStars(t)
    ensures Matches(t, w)
  {
    assert t[1..] == [] || AllStars(t[1..]);
    if t[1..] == [] {
      assert Matches(t[1..], w[|w|..]);
    } else {
      StarsAcceptAll(t[1..], w);
      assert w[0..] == w;
    }
  }

  /** A shortest string of the language, which the code takes too early on in the pattern. */
  lemma {:induction false} ShortestRejected(p: Text)
    requires Fulfillable(p) && SteadyClasses(p) && !PlainPattern(p) && !StarTail(p)
    ensures !Matches(p, Shortest(p))
    decreases |p|
  {
    hide PlainClass, SteadyClass, FirstToken, OwnClose, FirstClose, AllStars;
    var rest, w := Rest(p), Shortest(Rest(p));
    if p[0] == STAR {
      ShortestRejected(rest);
      assert w[0..] == w;
      forall k | 0 <= k <= |w|
        ensures !Matches(rest, w[k..])
      {
        if Matches(rest, w[k..]) {
          NotShorter(rest, w[k..]);
        }
      }
      assert Shortest(p) == w && p[1..] == rest;
    } else if p[0] == OPEN && !PlainClass(p) {
      EarlyRejected(p);
    } else {
      var c := ExampleChar(p);
      ResidualIsRest(p, c);
      ShortestRejected(rest);
      assert Shortest(p)[0] == c && Shortest(p)[1..] == w;
    }
  }

  lemma EarlyRejected(p: Text)
    requires p != [] && p[0] == OPEN && Fulfillable(p) && SteadyClasses(p) && !PlainClass(p) && !StarTail(p)
    ensures !Matches(p, Shortest(p))
  {
    hide PlainClass, SteadyClass, Matches, FirstToken;
    var f, w := FirstClose(p, 1), Shortest(Rest(p));
    assert Shortest(p) == [p[1]] + w;
    EarlyStep(p, w);
    if Matches(p[f + 1..], w) {
      if OwnClose(p, 1) < |p| {
        var k := EarlyClose(p, f, w);
        NotShorter(Rest(p), w[k..]);
      } else {
        NothingAfterUnclosed(p);
        OnlyStarsAcceptNothing(p[f + 1..]);
      }
      assert false;
    }
  }

  /** With only stars left, whatever follows. */
  lemma {:induction false} StarTailAccepts(p: Text, v: Text)
    requires Fulfillable(p) && StarTail(p)
    ensures Matches(p, Shortest(p) + v)
    decreases |p|
  {
    hide PlainClass, FirstToken, OwnClose, FirstClose, AllStars, Matches, Ranges, Residual;
    var rest, w := Rest(p), Shortest(Rest(p));
    if p[0] == OPEN && !PlainClass(p) {
      NothingAfterUnclosed(p);
      EarlyStep(p, v);
      StarsAcceptAll(p[FirstClose(p, 1) + 1..], v);
      assert Shortest(p) == [p[1]];
    } else {
      StarTailAccepts(rest, v);
      if p[0] == STAR {
        assert Shortest(p) == w;
        assert (w + v)[0..] == w + v;
        StarAbsorbs(p, w + v, 0);
      } else {
        var c := ExampleChar(p);
        PlainStepAccepts(p, c, w + v);
        Sequences.Associative([c], w, v);
      }
    }
  }

  lemma StarAbsorbs(p: Text, s: Text, k: nat)
    requires p != [] && p[0] == STAR && k <= |s| && (Matches(p, s[k..]) || Matches(p[1..], s[k..]))
    ensures Matches(p, s)
  {
    if Matches(p, s[k..]) {
      var j :| 0 <= j <= |s| - k && Matches(p[1..], s[k..][j..]);
      assert s[k..][j..] == s[k + j..];
    }
  }

  lemma PlainStepAccepts(p: Text, c: Chr, s: Text)
    requires p != [] && p[0] != STAR && (p[0] == OPEN ==> PlainClass(p))
    requires Accepts(FirstToken(p), c) && Matches(Rest(p), s)
    ensures Matches(p, [c] + s)
  {
    hide PlainClass, FirstToken, OwnClose, Residual;
    ResidualIsRest(p, c);
    assert ([c] + s)[1..] == s;
  }

  lemma {:induction false} StarTailLast(p: Text)
    requires StarTail(p)
    ensures Tokens(p) != [] && Tokens(p)[|Tokens(p)| - 1].Class?
    decreases |p|
  {
    hide PlainClass, FirstToken, OwnClose, FirstClose, AllStars;
    if p[0] == OPEN && !PlainClass(p) {
      NothingAfterUnclosed(p);
    } else {
      StarTailLast(Rest(p));
    }
  }

  /** Where the last token is a bracket expression, it accepts the last character. */
  lemma {:induction false} LastAccepted(ts: seq<Token>, s: Text)
    requires ts != [] && ts[|ts| - 1].Class? && InLanguage(ts, s)
    ensures s != [] && Accepts(ts[|ts| - 1], s[|s| - 1])
  {
    hide Accepts;
    if |ts| > 1 {
      var k := TokenTakes(ts, s);
      hide InLanguage;
      assert ts[1..][|ts| - 2] == ts[|ts| - 1];
      LastAccepted(ts[1..], s[k..]);
      assert s[k..][|s| - k - 1] == s[|s| - 1];
    } else {
      assert InLanguage(ts[1..], s[1..]);
    }
  }

  lemma TokenTakes(ts: seq<Token>, s: Text) returns (k: nat)
    requires ts != [] && InLanguage(ts, s)
    ensures k <= |s| && InLanguage(ts[1..], s[k..])
  {
    if ts[0].Star? {
      k :| 0 <= k <= |s| && InLanguage(ts[1..], s[k..]);
    } else {
      k := 1;
    }
  }

  /** Some character lies outside all ranges. */
  lemma {:induction false} Outside(rs: seq<Range>) returns (y: Chr)
    ensures forall k | 0 <= k < |rs| :: rs[k].first < y && rs[k].last < y
  {
    if rs == [] {
      y := 0;
    } else {
      var z := Outside(rs[1..]);
      var r := rs[0];
      y := if r.first < z && r.last < z then z else if r.first < r.last then r.last + 1 else r.first + 1;
      assert forall k | 0 < k < |rs| :: rs[k] == rs[1..][k - 1];
    }
  }

  /** No string shows a difference between the code and the language. */
  ghost predicate Agrees(p: Text) {
    forall s :: Matches(p, s) <==> InLanguage(Tokens(p), s)
  }

  /** Where a pattern is not plain some string shows the difference: a shortest one of the language that the code does
      not accept, or one that is too long for the language, after an unclosed class and before stars. */
  lemma Difference(p: Text) returns (s: Text)
    requires Fulfillable(p) && SteadyClasses(p) && !PlainPattern(p)
    ensures Matches(p, s) != InLanguage(Tokens(p), s)
  {
    if StarTail(p) {
      StarTailLast(p);
      var y := Outside(Tokens(p)[|Tokens(p)| - 1].ranges);
      s := Shortest(p) + [y];
      StarTailAccepts(p, [y]);
      if InLanguage(Tokens(p), s) {
        LastAccepted(Tokens(p), s);
        assert false;
      }
    } else {
      s := Shortest(p);
      ShortestInLanguage(p);
      ShortestRejected(p);
    }
  }

  /** On patterns with tokens that accept something and steady bracket expressions the code accepts exactly the language
      of the pattern if and only if the pattern is plain. */
  lemma ExactlyOnPlain(p: Text)
    requires Fulfillable(p) && SteadyClasses(p)
    ensures Agrees(p) <==> PlainPattern(p)
  {
    if PlainPattern(p) {
      forall s
        ensures Matches(p, s) <==> InLanguage(Tokens(p), s)
      {
        MatchesIsLanguage(p, s);
      }
    } else {
      var s := Difference(p);
    }
  }

  /** Why it asks for tokens that accept something: neither the code nor the language of `[][a-]]` holds a string. */
  lemma AgreesOnNothing()
    ensures var p := [OPEN, CLOSE, OPEN, 'a' as int, DASH, CLOSE, CLOSE];
            !Fulfillable(p) && !PlainPattern(p) && Agrees(p)
  {
    var p := [OPEN, CLOSE, OPEN, 'a' as int, DASH, CLOSE, CLOSE];
    assert Ranges(p, 1) == [] && OwnClose(p, 1) == 1;
    var q := Rest(p);
    assert q == [OPEN, 'a' as int, DASH, CLOSE, CLOSE];
    assert OwnClose(q, 4) == 4 && OwnClose(q, 1) == 4 && FirstClose(q, 3) == 3 && FirstClose(q, 1) == 3;
    assert !PlainPattern(q);
  }

  /** The class of `[a-]*[-!-]*[b]` ends in `-` and holds a `[` after its early close. */
  const UNSTEADY: Text :=
    [OPEN, 'a' as int, DASH, CLOSE, STAR, OPEN, DASH, '!' as int, DASH, CLOSE, STAR, OPEN, 'b' as int, CLOSE]

  lemma UnsteadyClass()
    ensures var p := UNSTEADY;
            OwnClose(p, 1) == 9
            && Ranges(p, 1) == [Range('a' as int, CLOSE), Range(STAR, STAR), Range(OPEN, '!' as int), Range(DASH, DASH)]
  {
    var p := UNSTEADY;
    assert OwnClose(p, 9) == 9 && OwnClose(p, 5) == 9 && OwnClose(p, 4) == 9;
    assert Ranges(p, 9) == [] && Ranges(p, 8) == [Range(DASH, DASH)];
    assert Ranges(p, 5) == [Range(OPEN, '!' as int), Range(DASH, DASH)];
    assert Ranges(p, 4) == [Range(STAR, STAR), Range(OPEN, '!' as int), Range(DASH, DASH)];
  }

  lemma UnsteadyResidual(c: Chr)
    ensures var p := UNSTEADY;
            Residual(p, c) == if CLOSE <= c <= 'a' as int then Some(p[4..])
            else if '!' as int <= c <= OPEN then Some(p[10..]) else None
  {
    var p := UNSTEADY;
    var low := '!' as int <= c <= OPEN;
    assert FirstHit(p, 8, c) == if c == DASH then Some(8) else None;
    assert FirstHit(p, 5, c) == if low then Some(5) else None;
    assert FirstHit(p, 4, c) == if c == STAR then Some(4) else if low then Some(5) else None;
    assert FirstHit(p, 1, c) == if CLOSE <= c <= 'a' as int then Some(1) else FirstHit(p, 4, c);
    assert FirstClose(p, 9) == 9 && FirstClose(p, 5) == 9 && FirstClose(p, 4) == 9;
    assert FirstClose(p, 3) == 3 && FirstClose(p, 1) == 3;
  }

  lemma NestedResidual(c: Chr)
    ensures var q := UNSTEADY[5..];
            Residual(q, c) == if '!' as int <= c <= CLOSE then Some(q[5..])
            else if c == 'b' as int then Some([]) else None
  {
    var q := [OPEN, DASH, '!' as int, DASH, CLOSE, STAR, OPEN, 'b' as int, CLOSE];
    assert UNSTEADY[5..] == q;
    assert FirstHit(q, 8, c) == None;
    assert FirstHit(q, 7, c) == if c == 'b' as int then Some(7) else None;
    var mid := '!' as int <= c <= CLOSE;
    assert !mid ==> FirstHit(q, 5, c) == FirstHit(q, 7, c);
    assert FirstHit(q, 2, c) == if mid then Some(2) else FirstHit(q, 7, c);
    assert FirstHit(q, 1, c) == if c == DASH then Some(1) else FirstHit(q, 2, c);
    assert FirstClose(q, 4) == 4 && FirstClose(q, 2) == 4 && FirstClose(q, 1) == 4;
    assert FirstClose(q, 8) == 8 && FirstClose(q, 7) == 8;
  }

  lemma LastResidual(c: Chr)
    ensures Residual(UNSTEADY[11..], c) == if c == 'b' as int then Some([]) else None
  {
    var q := [OPEN, 'b' as int, CLOSE];
    assert UNSTEADY[11..] == q;
    assert FirstHit(q, 2, c) == None && FirstClose(q, 2) == 2;
  }

  /** What stands before the last `*` adds nothing to what it accepts: the class in between is passed with a `b`. */
  lemma NestedSame(s: Text)
    ensures Matches(UNSTEADY[4..], s) <==> Matches(UNSTEADY[10..], s)
  {
    var p, q := UNSTEADY[4..], UNSTEADY[10..];
    assert p[1..] == UNSTEADY[5..] && q[1..] == UNSTEADY[11..] && UNSTEADY[5..][5..] == q;
    if Matches(p, s) {
      var k :| 0 <= k <= |s| && Matches(p[1..], s[k..]);
      NestedResidual(s[k]);
      LastResidual(s[k]);
      assert s[k..][1..] == s[k + 1..];
      StarAbsorbs(q, s, if s[k] == 'b' as int then k else k + 1);
    }
    if Matches(q, s) {
      var k :| 0 <= k <= |s| && Matches(q[1..], s[k..]);
      NestedResidual(s[k]);
      LastResidual(s[k]);
      assert Matches(p[1..], s[k..]);
    }
  }

  /** Why it asks for steady classes: the code takes the class of `[a-]*[-!-]*[b]` to be closed early, and accepts
      exactly the language all the same. */
  lemma AgreesThoughUnsteady()
    ensures Fulfillable(UNSTEADY) && !SteadyClasses(UNSTEADY) && !PlainPattern(UNSTEADY) && Agrees(UNSTEADY)
  {
    var p, q := UNSTEADY, UNSTEADY[10..];
    UnsteadyClass();
    UnsteadyTail();
    assert Rest(p) == q;
    assert FirstClose(p, 1) < 4;
    assert OPEN in p[1..][..8] && p[1..][7] == DASH;
    forall s
      ensures Matches(p, s) <==> InLanguage(Tokens(p), s)
    {
      UnsteadyAgrees(s);
    }
  }

  lemma UnsteadyTail()
    ensures var q := UNSTEADY[10..]; PlainPattern(q) && Fulfillable(q)
  {
    var q, r := UNSTEADY[10..], UNSTEADY[11..];
    assert r == [OPEN, 'b' as int, CLOSE] && q[1..] == r;
    assert OwnClose(r, 2) == 2 && FirstClose(r, 2) == 2 && Ranges(r, 2) == [];
    assert OwnClose(r, 1) == 2 && FirstClose(r, 1) == 2 && Ranges(r, 1) == [Range('b' as int, 'b' as int)];
    assert Rest(r) == [];
  }

  lemma UnsteadyAgrees(s: Text)
    ensures Matches(UNSTEADY, s) <==> InLanguage(Tokens(UNSTEADY), s)
  {
    hide FirstHit, FirstClose, Ranges, OwnClose;
    var p, q := UNSTEADY, UNSTEADY[10..];
    UnsteadyClass();
    assert Rest(p) == q && Tokens(p)[1..] == Tokens(q);
    if s != [] {
      UnsteadyResidual(s[0]);
      HitIffAccepted(p, 1, s[0]);
      NestedSame(s[1..]);
      UnsteadyTail();
      MatchesIsLanguage(q, s[1..]);
    }
  }

  // ---------- The pieces a pattern is made of ----------

  predicate Special(c: Chr) {
    c in {'*' as int, '?' as int, '[' as int, '\\' as int}
  }

  /** What each kind of piece accepts by itself. */
  lemma PiecesMean(c: Chr, s: Text)
    ensures Matches(['*' as int], s)
    ensures Matches(['?' as int], s) <==> |s| == 1
    ensures !Special(c) ==> (Matches([c], s) <==> s == [c])
    ensures Matches(['\\' as int, c], s) <==> s == [c]
  {
    assert Matches([], []);
    assert s[|s|..] == [] && [STAR][1..] == [];
    assert ['\\' as int, c][2..] == [];
    assert s != [] ==> (s == [c] <==> s[0] == c && s[1..] == []);
  }

  /** A range accepts one character between its ends, whichever is the greater; it may be one of several in a class. */
  lemma ClassesMean(c: Chr, d: Chr, s: Text)
    requires c != ']' as int && d != ']' as int
    ensures Matches(['[' as int, c, ']' as int], s) <==> s == [c]
    ensures d != '-' as int ==> (Matches(['[' as int, c, d, ']' as int], s) <==> s == [c] || s == [d])
    ensures Matches(['[' as int, c, '-' as int, d, ']' as int], s) <==>
            |s| == 1 && (c <= s[0] <= d || d <= s[0] <= c)
  {
    OneChar(c, s);
    if d != '-' as int {
      TwoChars(c, d, s);
    }
    OneRange(c, d, s);
  }

  /** Patterns that break off or hold an empty class. */
  lemma OddPieces(c: Chr, s: Text)
    ensures !Matches(['\\' as int], s) && !Matches(['[' as int], s) && !Matches(['[' as int, ']' as int], s)
    ensures c != ']' as int ==> (Matches(['[' as int, c], s) <==> s == [c])
    ensures c != ']' as int ==> (Matches(['[' as int, c, '-' as int], s) <==> s == [c])
  {
    if s != [] && c != CLOSE {
      assert FirstHit([OPEN, c], 2, s[0]) == None;
      UnclosedMatches([OPEN, c], s, c);
      UnclosedMatches([OPEN, c, DASH], s, c);
    }
  }

  lemma UnclosedMatches(p: Text, s: Text, c: Chr)
    requires p != [] && p[0] == OPEN && s != [] && (forall k | 1 <= k < |p| :: p[k] != CLOSE)
    requires FirstHit(p, 1, s[0]).Some? <==> s[0] == c
    ensures Matches(p, s) <==> s == [c]
  {
    if s[0] == c {
      assert FirstClose(p, FirstHit(p, 1, c).value) == |p|;
      assert Matches([], s[1..]) <==> s[1..] == [];
    }
  }

  lemma ClassMatches(p: Text, s: Text, e: nat, accepts: bool)
    requires p != [] && p[0] == OPEN && 1 <= e && |p| == e + 1 && p[e] == CLOSE
    requires forall k | 1 <= k < e :: p[k] != CLOSE
    requires s != [] ==> (FirstHit(p, 1, s[0]).Some? <==> accepts)
    requires s != [] && FirstHit(p, 1, s[0]).Some? ==> FirstHit(p, 1, s[0]).value <= e
    ensures Matches(p, s) <==> |s| == 1 && accepts
  {
    if s != [] && accepts {
      var at := FirstHit(p, 1, s[0]).value;
      assert FirstClose(p, at) == e;
      assert Residual(p, s[0]) == Some([]);
      assert Matches([], s[1..]) <==> s[1..] == [];
    }
  }

  lemma OneChar(c: Chr, s: Text)
    requires c != CLOSE
    ensures Matches([OPEN, c, CLOSE], s) <==> s == [c]
  {
    var p := [OPEN, c, CLOSE];
    if s != [] {
      assert FirstHit(p, 2, s[0]) == None;
    }
    ClassMatches(p, s, 2, s != [] && s[0] == c);
  }

  lemma TwoChars(c: Chr, d: Chr, s: Text)
    requires c != CLOSE && d != CLOSE && d != DASH
    ensures Matches([OPEN, c, d, CLOSE], s) <==> s == [c] || s == [d]
  {
    var p := [OPEN, c, d, CLOSE];
    if s != [] {
      assert FirstHit(p, 3, s[0]) == None;
      assert FirstHit(p, 2, s[0]) == if s[0] == d then Some(2) else None;
    }
    ClassMatches(p, s, 3, s != [] && (s[0] == c || s[0] == d));
  }

  lemma OneRange(c: Chr, d: Chr, s: Text)
    requires c != CLOSE && d != CLOSE
    ensures Matches([OPEN, c, DASH, d, CLOSE], s) <==> |s| == 1 && (c <= s[0] <= d || d <= s[0] <= c)
  {
    var p := [OPEN, c, DASH, d, CLOSE];
    if s != [] {
      assert FirstHit(p, 4, s[0]) == None;
    }
    ClassMatches(p, s, 4, s != [] && (c <= s[0] <= d || d <= s[0] <= c));
  }

  // ---------- Algebra ----------

  ghost predicate SplitsAt(a: seq<Token>, b: seq<Token>, s: Text, k: int) {
    0 <= k <= |s| && InLanguage(a, s[..k]) && InLanguage(b, s[k..])
  }

  /** A sequence of tokens matches exactly the concatenations of what its two parts match. */
  lemma {:induction false} LanguageOfConcat(a: seq<Token>, b: seq<Token>, s: Text)
    ensures InLanguage(a + b, s) <==> exists k :: SplitsAt(a, b, s, k)
    decreases |a|, 1
  {
    if a == [] {
      assert a + b == b && s[..0] == [] && s[0..] == s;
      assert SplitsAt(a, b, s, 0) <==> InLanguage(b, s);
      assert forall k :: SplitsAt(a, b, s, k) ==> k == 0;
    } else if a[0].Star? {
      StarConcat(a, b, s);
    } else {
      CharConcat(a, b, s);
    }
  }

  lemma {:induction false} StarConcat(a: seq<Token>, b: seq<Token>, s: Text)
    requires a != [] && a[0].Star?
    ensures InLanguage(a + b, s) <==> exists k :: SplitsAt(a, b, s, k)
    decreases |a|, 0
  {
    assert (a + b)[1..] == a[1..] + b;
    if InLanguage(a + b, s) {
      var i :| 0 <= i <= |s| && InLanguage(a[1..] + b, s[i..]);
      LanguageOfConcat(a[1..], b, s[i..]);
      var k :| SplitsAt(a[1..], b, s[i..], k);
      assert s[i..][..k] == s[..i + k][i..] && s[i..][k..] == s[i + k..];
      assert SplitsAt(a, b, s, i + k);
    }
    if k :| SplitsAt(a, b, s, k) {
      var i :| 0 <= i <= k && InLanguage(a[1..], s[..k][i..]);
      assert s[..k][i..] == s[i..][..k - i] && s[k..] == s[i..][k - i..];
      assert SplitsAt(a[1..], b, s[i..], k - i);
      LanguageOfConcat(a[1..], b, s[i..]);
      assert InLanguage(a[1..] + b, s[i..]);
    }
  }

  lemma {:induction false} CharConcat(a: seq<Token>, b: seq<Token>, s: Text)
    requires a != [] && !a[0].Star?
    ensures InLanguage(a + b, s) <==> exists k :: SplitsAt(a, b, s, k)
    decreases |a|, 0
  {
    assert (a + b)[1..] == a[1..] + b;
    if s == [] {
      assert forall k | 0 <= k <= |s| :: s[..k] == [];
    } else {
      LanguageOfConcat(a[1..], b, s[1..]);
      assert s[..0] == [];
      forall k
        ensures SplitsAt(a, b, s, k) <==> Accepts(a[0], s[0]) && SplitsAt(a[1..], b, s[1..], k - 1)
      {
        if 1 <= k <= |s| {
          assert s[..k][1..] == s[1..][..k - 1] && s[1..][k - 1..] == s[k..];
          assert InLanguage(a, s[..k]) <==> Accepts(a[0], s[0]) && InLanguage(a[1..], s[1..][..k - 1]);
        }
      }
      if k :| SplitsAt(a[1..], b, s[1..], k) {
        assert Accepts(a[0], s[0]) ==> SplitsAt(a, b, s, k + 1);
      }
    }
  }

  /** The pattern ends between two tokens: no bracket expression is left open and no backslash is left over. */
  predicate EndsOnBoundary(p: Text)
    decreases |p|
  {
    p == [] || (FirstTokenComplete(p) && EndsOnBoundary(Rest(p)))
  }

  predicate FirstTokenComplete(p: Text)
    requires p != []
  {
    if p[0] == OPEN then OwnClose(p, 1) < |p| else p[0] == BACKSLASH ==> |p| > 1
  }

  lemma {:induction false} ClosedClassExtends(p: Text, q: Text, i: nat)
    requires i <= |p| && OwnClose(p, i) < |p|
    ensures OwnClose(p + q, i) == OwnClose(p, i)
    ensures FirstClose(p, i) < |p| && FirstClose(p + q, i) == FirstClose(p, i)
    ensures Ranges(p + q, i) == Ranges(p, i)
    decreases |p| - i
  {
    if p[i] != CLOSE {
      var next := if i + 1 < |p| && p[i + 1] == DASH then i + 3 else i + 1;
      ClosedClassExtends(p, q, next);
      FirstCloseExtends(p, q, i);
      FirstCloseLeast(p, i, OwnClose(p, i));
    }
  }

  lemma FirstCloseExtends(p: Text, q: Text, i: nat)
    requires i <= |p|
    ensures FirstClose(p, i) < |p| ==> FirstClose(p + q, i) == FirstClose(p, i)
    decreases |p| - i
  {
  }

  lemma FirstTokenExtends(p: Text, q: Text)
    requires p != [] && FirstTokenComplete(p)
    ensures FirstToken(p + q) == FirstToken(p) && Rest(p + q) == Rest(p) + q
    ensures p[0] == OPEN && PlainClass(p) ==> PlainClass(p + q)
  {
    hide Ranges, OwnClose, FirstClose, PlainClass;
    if p[0] == OPEN {
      FirstClassExtends(p, q);
    } else if p[0] == BACKSLASH {
      assert (p + q)[2..] == p[2..] + q;
    } else {
      assert (p + q)[1..] == p[1..] + q;
    }
  }

  lemma FirstClassExtends(p: Text, q: Text)
    requires p != [] && p[0] == OPEN && FirstTokenComplete(p)
    ensures Ranges(p + q, 1) == Ranges(p, 1) && Rest(p + q) == Rest(p) + q
    ensures PlainClass(p) ==> PlainClass(p + q)
  {
    hide Ranges, OwnClose, FirstClose;
    ClosedClassExtends(p, q, 1);
    var e := OwnClose(p, 1);
    assert (p + q)[e + 1..] == p[e + 1..] + q;
  }

  lemma {:induction false} TokensOfConcat(p: Text, q: Text)
    requires EndsOnBoundary(p)
    ensures Tokens(p + q) == Tokens(p) + Tokens(q)
    ensures PlainPattern(p) && PlainPattern(q) ==> PlainPattern(p + q)
    decreases |p|
  {
    if p == [] {
      assert p + q == q;
    } else {
      FirstTokenExtends(p, q);
      TokensOfConcat(Rest(p), q);
      assert [FirstToken(p)] + (Tokens(Rest(p)) + Tokens(q)) == Tokens(p) + Tokens(q);
    }
  }

  /** Concatenated patterns match concatenated strings, for the code itself. */
  lemma MatchesConcat(p: Text, q: Text, s: Text)
    requires EndsOnBoundary(p) && PlainPattern(p) && PlainPattern(q)
    ensures Matches(p + q, s) <==> exists k | 0 <= k <= |s| :: Matches(p, s[..k]) && Matches(q, s[k..])
  {
    TokensOfConcat(p, q);
    MatchesIsLanguage(p + q, s);
    LanguageOfConcat(Tokens(p), Tokens(q), s);
    forall k | 0 <= k <= |s|
      ensures Matches(p, s[..k]) && Matches(q, s[k..]) <==> SplitsAt(Tokens(p), Tokens(q), s, k)
    {
      MatchesIsLanguage(p, s[..k]);
      MatchesIsLanguage(q, s[k..]);
    }
  }

  /** Every character of `t` quoted by a backslash. */
  function Escaped(t: Text): Text {
    if t == [] then [] else [BACKSLASH, t[0]] + Escaped(t[1..])
  }

  /** The escaped form of a string matches that string and nothing else. */
  lemma {:induction false} EscapedMatchesItself(t: Text, s: Text)
    requires NUL !in t
    ensures CStr(Escaped(t)) == Escaped(t)
    ensures Matches(Escaped(t), s) <==> s == t
  {
    if t != [] {
      var p := Escaped(t);
      assert p[2..] == Escaped(t[1..]) && p[1..] == [t[0]] + p[2..];
      assert t[0] in t;
      if s == [] {
        EscapedMatchesItself(t[1..], []);
      } else {
        EscapedMatchesItself(t[1..], s[1..]);
        assert s == t <==> s[0] == t[0] && s[1..] == t[1..];
      }
    }
  }
}
