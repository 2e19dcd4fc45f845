/** Lexical relative paths of XLN/Core/Platform/PlatformService.cpp, on the components that iterating over a path
    gives. */
module RelativePath {
  import opened Sequences

  /** The root directory, a name, "." or "..". */
  datatype Component = Root | Name(name: string) | Dot | DotDot

  type Path = seq<Component>

  /** How long a prefix two paths share. */
  function Common(from: Path, to: Path): (n: nat)
    ensures n <= |from| && n <= |to| && from[..n] == to[..n]
    ensures n < |from| && n < |to| ==> from[n] != to[n]
  {
    if from != [] && to != [] && from[0] == to[0] then 1 + Common(from[1..], to[1..]) else 0
  }

  /** How many components come before the first ".". */
  function BeforeDot(p: Path): (n: nat)
    ensures n <= |p| && (forall i | 0 <= i < n :: p[i] != Dot) && (n < |p| ==> p[n] == Dot)
  {
    if p == [] || p[0] == Dot then 0 else 1 + BeforeDot(p[1..])
  }

  function Ups(n: nat): (p: Path)
    ensures |p| == n && forall i | 0 <= i < n :: p[i] == DotDot
  {
    if n == 0 then [] else [DotDot] + Ups(n - 1)
  }

  function Relative(from: Path, to: Path): Path {
    var n := Common(from, to);
    Ups(BeforeDot(from[n..])) + to[n..]
  }

  /** Walks both paths while they agree, goes up once for what is left of the one, and down along what is left of the
      other. */
  method RelativeTo(from: Path, to: Path) returns (finalPath: Path)
    ensures finalPath == Relative(from, to)
  {
    hide Common, BeforeDot, Ups, Relative;
    var f, t := 0, 0;
    StartOf(from, to);
    while f < |from| && t < |to| && to[t] == from[f]
      invariant 0 <= f == t <= |from| && t <= |to|
      invariant Common(from, to) == f + Common(from[f..], to[t..])
    {
      CommonStep(from, to, f);
      t := t + 1;
      f := f + 1;
    }
    CommonStops(from, to, f);
    ghost var n := f;
    finalPath := [];
    while f < |from| && from[f] != Dot
      invariant n <= f <= |from| && finalPath == Ups(f - n)
      invariant BeforeDot(from[n..]) == f - n + BeforeDot(from[f..])
    {
      BeforeDotStep(from, f);
      OneMoreUp(f - n);
      finalPath := finalPath + [DotDot];
      f := f + 1;
    }
    BeforeDotStops(from, f);
    while t < |to|
      invariant n <= t <= |to| && finalPath == Ups(f - n) + to[n..t]
    {
      OneMoreDown(Ups(f - n), to, n, t);
      finalPath := finalPath + [to[t]];
      t := t + 1;
    }
    AllDown(from, to, n, f);
  }

  lemma OneMoreDown(ups: Path, to: Path, n: nat, t: nat)
    requires n <= t < |to|
    ensures ups + to[n..t] + [to[t]] == ups + to[n..t + 1]
  {
  }

  lemma AllDown(from: Path, to: Path, n: nat, f: nat)
    requires n == Common(from, to) <= f && BeforeDot(from[n..]) == f - n
    ensures Ups(f - n) + to[n..|to|] == Relative(from, to)
  {
    assert to[n..|to|] == to[n..];
  }

  lemma StartOf(from: Path, to: Path)
    ensures Common(from, to) == Common(from[0..], to[0..]) && Ups(0) == []
  {
    assert from[0..] == from && to[0..] == to;
  }

  lemma CommonStep(from: Path, to: Path, f: nat)
    requires f < |from| && f < |to| && to[f] == from[f]
    ensures Common(from[f..], to[f..]) == 1 + Common(from[f + 1..], to[f + 1..])
  {
    assert from[f..][1..] == from[f + 1..] && to[f..][1..] == to[f + 1..];
  }

  lemma CommonStops(from: Path, to: Path, f: nat)
    requires f <= |from| && f <= |to| && !(f < |from| && f < |to| && to[f] == from[f])
    ensures Common(from[f..], to[f..]) == 0
  {
  }

  lemma BeforeDotStep(from: Path, f: nat)
    requires f < |from| && from[f] != Dot
    ensures BeforeDot(from[f..]) == 1 + BeforeDot(from[f + 1..])
  {
    assert from[f..][1..] == from[f + 1..];
  }

  lemma BeforeDotStops(from: Path, f: nat)
    requires f <= |from| && !(f < |from| && from[f] != Dot)
    ensures BeforeDot(from[f..]) == 0
  {
  }

  lemma {:induction false} OneMoreUp(n: nat)
    ensures Ups(n) + [DotDot] == Ups(n + 1)
  {
    if n > 0 {
      OneMoreUp(n - 1);
    }
  }

  // ---------- Lexical normalisation ----------

  /** "." says nothing and ".." takes a name back; at the root it does nothing. */
  function Step(stack: Path, c: Component): Path {
    match c
    case Dot => stack
    case DotDot =>
      if stack == [] || stack[|stack| - 1] == DotDot then stack + [DotDot]
      else if stack[|stack| - 1] == Root then stack
      else stack[..|stack| - 1]
    case _ => stack + [c]
  }

  function Walk(stack: Path, p: Path): Path
    decreases |p|
  {
    if p == [] then stack else Walk(Step(stack, p[0]), p[1..])
  }

  function Normal(p: Path): Path {
    Walk([], p)
  }

  predicate Plain(p: Path) {
    forall i | 0 <= i < |p| :: p[i].Name? || p[i].Dot?
  }

  predicate AllNames(p: Path) {
    forall i | 0 <= i < |p| :: p[i].Name?
  }

  function Names(p: Path): (r: Path)
    ensures |r| <= |p| && (Plain(p) ==> AllNames(r))
  {
    if p == [] then [] else (if p[0] == Dot then [] else [p[0]]) + Names(p[1..])
  }

  lemma {:induction false} WalkOn(stack: Path, p: Path, q: Path)
    ensures Walk(stack, p + q) == Walk(Walk(stack, p), q)
    decreases |p|
  {
    if p != [] {
      assert (p + q)[1..] == p[1..] + q;
      WalkOn(Step(stack, p[0]), p[1..], q);
    } else {
      assert p + q == q;
    }
  }

  lemma StepPlain(stack: Path, c: Component)
    requires c.Name? || c.Dot?
    ensures Step(stack, c) == stack + if c.Dot? then [] else [c]
  {
  }

  lemma {:induction false} WalkPlain(stack: Path, p: Path)
    requires Plain(p)
    ensures Walk(stack, p) == stack + Names(p)
    decreases |p|
  {
    if p != [] {
      var first := if p[0].Dot? then [] else [p[0]];
      StepPlain(stack, p[0]);
      hide Step;
      WalkPlain(stack + first, p[1..]);
      assert (stack + first) + Names(p[1..]) == stack + (first + Names(p[1..]));
    }
  }

  lemma {:induction false} WalkUps(stack: Path, names: Path, n: nat)
    requires n <= |names| && AllNames(names)
    ensures Walk(stack + names, Ups(n)) == stack + names[..|names| - n]
  {
    if n > 0 {
      var last := |names| - 1;
      assert (stack + names)[|stack| + last] == names[last];
      assert Step(stack + names, DotDot) == stack + names[..last];
      assert Ups(n)[1..] == Ups(n - 1);
      WalkUps(stack, names[..last], n - 1);
    }
  }

  lemma {:induction false} NamesOn(p: Path, q: Path)
    ensures Names(p + q) == Names(p) + Names(q)
  {
    if p != [] {
      TailOfConcat(p, q);
      NamesOn(p[1..], q);
      Associative(if p[0] == Dot then [] else [p[0]], Names(p[1..]), Names(q));
    } else {
      assert p + q == q;
    }
  }

  lemma {:induction false} NamesAll(p: Path)
    requires AllNames(p)
    ensures Names(p) == p
  {
    if p != [] {
      NamesAll(p[1..]);
    }
  }

  /** An absolute path without "..". */
  predicate Absolute(p: Path) {
    p != [] && p[0] == Root && Plain(p[1..])
  }

  /** After its first ".", the part of `from` that differs from `to` names nothing. */
  predicate DotIsLast(from: Path, to: Path) {
    var rest := from[Common(from, to)..];
    Names(rest[BeforeDot(rest)..]) == []
  }

  lemma AbsoluteNormal(p: Path)
    requires Absolute(p)
    ensures Normal(p) == [Root] + Names(p[1..])
  {
    assert Step([], Root) == [Root];
    WalkPlain([Root], p[1..]);
  }

  /** Going up once for each component of `up`, after `common`, `up` and `on`, and then down. */
  lemma UpAndDown(common: Path, up: Path, on: Path, down: Path)
    requires Plain(common) && AllNames(up) && Plain(on) && Plain(down)
    ensures Walk([Root] + Names(common + up + on), Ups(|up|) + down) ==
            [Root] + Names(common) + (up + Names(on))[..|Names(on)|] + Names(down)
  {
    hide Walk, Names, Ups, Plain, AllNames;
    var stack, names := [Root] + Names(common), up + Names(on);
    NamesOfParts(common, up, on);
    NamesKind(on);
    AppendNames(up, Names(on));
    WalkOn(stack + names, Ups(|up|), down);
    WalkUps(stack, names, |up|);
    WalkPlain(stack + names[..|names| - |up|], down);
  }

  lemma NamesOfParts(common: Path, up: Path, on: Path)
    requires AllNames(up)
    ensures [Root] + Names(common + up + on) == [Root] + Names(common) + (up + Names(on))
  {
    hide Names, AllNames;
    NamesOn(common + up, on);
    NamesOn(common, up);
    NamesAll(up);
  }

  lemma AppendNames(p: Path, q: Path)
    requires AllNames(p) && AllNames(q)
    ensures AllNames(p + q)
  {
  }

  lemma NamesKind(p: Path)
    requires Plain(p)
    ensures AllNames(Names(p))
  {
  }

  /** Two absolute paths share the root; what is left of them is plain. */
  lemma Parts(from: Path, to: Path, n: nat, j: nat)
    requires Absolute(from) && Absolute(to) && n == Common(from, to) && j == BeforeDot(from[n..])
    ensures n > 0 && from[1..] == from[1..n] + from[n..n + j] + from[n + j..] && to[1..] == from[1..n] + to[n..]
    ensures Plain(from[1..n]) && AllNames(from[n..n + j]) && Plain(from[n + j..]) && Plain(to[n..])
    ensures from[n..][..j] == from[n..n + j] && from[n..][j..] == from[n + j..]
  {
    hide Plain, AllNames, BeforeDot, Common, Absolute;
    RootShared(from, to);
    SamePrefix(from, to, n);
    Cut(from, n, j);
    PlainPart(from, 1, n);
    PlainPart(from, n, n + j);
    PlainEnd(from, n + j);
    PlainEnd(to, n);
    BeforeDots(from, n, j);
    NoDots(from[n..n + j]);
  }

  lemma RootShared(from: Path, to: Path)
    requires Absolute(from) && Absolute(to)
    ensures Common(from, to) > 0
  {
  }

  lemma BeforeDots(p: Path, n: nat, j: nat)
    requires n <= |p| && j == BeforeDot(p[n..])
    ensures n + j <= |p| && forall c | c in p[n..n + j] :: !c.Dot?
  {
    assert p[n..][..j] == p[n..n + j];
  }

  lemma PlainEnd(p: Path, i: nat)
    requires Absolute(p) && 1 <= i <= |p|
    ensures Plain(p[i..])
  {
    PlainPart(p, i, |p|);
    assert p[i..|p|] == p[i..];
  }

  lemma Cut(p: Path, n: nat, j: nat)
    requires 0 < n && n + j <= |p|
    ensures p[1..] == p[1..n] + p[n..n + j] + p[n + j..]
    ensures p[n..][..j] == p[n..n + j] && p[n..][j..] == p[n + j..]
  {
  }

  lemma SamePrefix(from: Path, to: Path, n: nat)
    requires 0 < n <= |from| && n <= |to| && from[..n] == to[..n]
    ensures to[1..] == from[1..n] + to[n..]
  {
    assert from[1..n] == from[..n][1..] == to[..n][1..] == to[1..n];
  }

  lemma NoDots(p: Path)
    requires Plain(p) && forall c | c in p :: !c.Dot?
    ensures AllNames(p)
  {
  }

  lemma PlainPart(p: Path, i: nat, j: nat)
    requires Absolute(p) && 1 <= i <= j <= |p|
    ensures Plain(p[i..j])
  {
    forall k | 0 <= k < j - i
      ensures p[i..j][k].Name? || p[i..j][k].Dot?
    {
      assert p[i..j][k] == p[1..][i + k - 1];
    }
  }

  /** Joined to where it starts, the relative path normalises to where it should lead exactly if no name follows a "."
      in the part of `from` that differs; in particular when "." comes last only. */
  lemma RelativeIsRight(from: Path, to: Path)
    requires Absolute(from) && Absolute(to)
    ensures Normal(from + Relative(from, to)) == Normal(to) <==> DotIsLast(from, to)
  {
    hide Walk, Names, Ups, Common, BeforeDot, Plain;
    var n := Common(from, to);
    var j := BeforeDot(from[n..]);
    Parts(from, to, n, j);
    var common, up, on, down := from[1..n], from[n..n + j], from[n + j..], to[n..];
    AbsoluteNormal(from);
    AbsoluteNormal(to);
    NamesOn(common, down);
    WalkOn([], from, Ups(j) + down);
    UpAndDown(common, up, on, down);
    assert |Normal(from + Relative(from, to))| == |Normal(to)| + |Names(on)|;
  }

  lemma {:induction false} TrailingDotIsLast(from: Path, to: Path)
    requires Absolute(from) && Absolute(to) && forall i | 0 <= i < |from| - 1 :: from[i] != Dot
    ensures Normal(from + Relative(from, to)) == Normal(to)
  {
    RelativeIsRight(from, to);
    var rest := from[Common(from, to)..];
    var after := rest[BeforeDot(rest)..];
    assert after == [] || after == [Dot];
  }

  /** A "." in the middle leads astray. */
  lemma DotInTheMiddle()
    ensures var from, to := [Root, Dot, Name("a")], [Root, Name("b")];
            Normal(from + Relative(from, to)) != Normal(to)
  {
    var from, to := [Root, Dot, Name("a")], [Root, Name("b")];
    assert Common(from[1..], to[1..]) == 0;
    assert BeforeDot(from[1..]) == 0;
    assert Names(from[1..]) == [Name("a")] by {
      assert from[1..][1..] == [Name("a")];
      assert Names([Name("a")]) == [Name("a")] + Names([]);
    }
    RelativeIsRight(from, to);
  }
}
