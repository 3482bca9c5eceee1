/** The milestone track's routes: the table of step paths, the table of step
    titles, and the pattern `/\/rb\/(\d+)-/` that reads a step number back
    out of a path. */
module Routes {
  import opened Options
  import opened Decimal
  import opened Text

  const StepPrefix: string := "/rb/"

  /** `getPathForStep(step)`: the route of a milestone, `undefined` outside 1..8. */
  function PathForStep(step: int): Option<string> {
    if step == 1 then Some("/rb/01-problem")
    else if step == 2 then Some("/rb/02-market")
    else if step == 3 then Some("/rb/03-architecture")
    else if step == 4 then Some("/rb/04-hld")
    else if step == 5 then Some("/rb/05-lld")
    else if step == 6 then Some("/rb/06-build")
    else if step == 7 then Some("/rb/07-test")
    else if step == 8 then Some("/rb/08-ship")
    else None
  }

  /** The title table of the eight milestones, `undefined` outside 1..8. */
  function TitleTable(step: int): Option<string> {
    if step == 1 then Some("Problem Statement")
    else if step == 2 then Some("Market Analysis")
    else if step == 3 then Some("Architecture Design")
    else if step == 4 then Some("High Level Design")
    else if step == 5 then Some("Low Level Design")
    else if step == 6 then Some("Core Build")
    else if step == 7 then Some("Test Protocol")
    else if step == 8 then Some("Shipping")
    else None
  }

  /** `titles[step] || fallback`. */
  function TitleOr(step: int, fallback: string): string {
    var t := TitleTable(step);
    if t.Some? && t.value != "" then t.value else fallback
  }

  /** The length of the run of digits that starts s. */
  function DigitRun(s: string): (k: nat)
    ensures k <= |s| && AllDigits(s[..k])
    ensures k < |s| ==> !IsDigit(s[k])
  {
    if s != [] && IsDigit(s[0]) then 1 + DigitRun(s[1..]) else 0
  }

  /** The pattern matches at position p: "/rb/", one or more digits, then '-'.
      The greedy `\d+` can only be followed by '-' when it takes the whole
      run of digits, so the captured group is exactly that run. */
  predicate SegmentAt(path: string, p: nat) {
    p + |StepPrefix| <= |path| && path[p..p + |StepPrefix|] == StepPrefix &&
    var k := DigitRun(path[p + |StepPrefix|..]);
    1 <= k && p + |StepPrefix| + k < |path| && path[p + |StepPrefix| + k] == '-'
  }

  /** The leftmost position at or after `from` where the pattern matches. */
  function FindSegment(path: string, from: nat): (r: Option<nat>)
    requires from <= |path|
    ensures r.Some? ==> from <= r.value <= |path| && SegmentAt(path, r.value)
    ensures r.Some? ==> forall q :: from <= q < r.value ==> !SegmentAt(path, q)
    ensures r.None? ==> forall q :: from <= q <= |path| ==> !SegmentAt(path, q)
    decreases |path| - from
  {
    if SegmentAt(path, from) then Some(from)
    else if from == |path| then None
    else FindSegment(path, from + 1)
  }

  /** The run of digits after the "/rb/" at position p: what `(\d+)` captures
      when the pattern matches there. */
  function CapturedAt(path: string, p: nat): (d: string)
    requires p + |StepPrefix| <= |path|
    ensures |d| == DigitRun(path[p + |StepPrefix|..]) && AllDigits(d)
  {
    var start := p + |StepPrefix|;
    var k := DigitRun(path[start..]);
    assert path[start..start + k] == path[start..][..k];
    path[start..start + k]
  }

  /** `match[1]` of `path.match(/\/rb\/(\d+)-/)`, or `null` without a match. */
  function StepDigits(path: string): (r: Option<string>)
    ensures r.Some? ==> |r.value| >= 1 && AllDigits(r.value)
    ensures r.None? <==> forall q :: 0 <= q <= |path| ==> !SegmentAt(path, q)
  {
    match FindSegment(path, 0)
    case None => None
    case Some(p) => Some(CapturedAt(path, p))
  }

  /** `parseInt` of the captured digits, or None when the pattern did not match. */
  function StepNumber(path: string): Option<nat> {
    match StepDigits(path)
    case None => None
    case Some(d) => Some(ParseDigits(d))
  }

  /** Wherever the leftmost match sits, the captured group is the whole
      run of digits after its "/rb/", and the step is their decimal value. */
  lemma StepAtFirstSegment(path: string, p: nat)
    requires p <= |path| && SegmentAt(path, p)
    requires forall q :: 0 <= q < p ==> !SegmentAt(path, q)
    ensures StepDigits(path) == Some(CapturedAt(path, p))
    ensures StepNumber(path) == Some(ParseDigits(CapturedAt(path, p)))
  {
    assert FindSegment(path, 0) == Some(p);
  }

  lemma {:induction false} DigitRunOfDigits(d: string, t: string)
    requires AllDigits(d)
    ensures DigitRun(d + t) == |d| + DigitRun(t)
  {
    if d != [] {
      assert (d + t)[1..] == d[1..] + t;
      DigitRunOfDigits(d[1..], t);
    } else {
      assert d + t == t;
    }
  }

  /** A path that starts with "/rb/", digits and '-' has those digits as
      its step segment, whatever follows. */
  lemma SegmentOfStepPath(d: string, rest: string)
    requires |d| >= 1 && AllDigits(d)
    ensures StepDigits(StepPrefix + d + "-" + rest) == Some(d)
  {
    var path := StepPrefix + d + "-" + rest;
    var tail := path[|StepPrefix|..];
    assert tail == d + ("-" + rest);
    DigitRunOfDigits(d, "-" + rest);
    assert DigitRun("-" + rest) == 0;
    assert path[..|StepPrefix|] == StepPrefix;
    assert path[|StepPrefix| + |d|] == '-';
    assert SegmentAt(path, 0);
    assert path[|StepPrefix|..|StepPrefix| + |d|] == d;
  }

  /** Leading zeros in the step segment do not change the step number. */
  lemma LeadingZerosInSegment(z: string, d: string, rest: string)
    requires forall i :: 0 <= i < |z| ==> z[i] == '0'
    requires |z + d| >= 1 && AllDigits(d)
    ensures StepNumber(StepPrefix + (z + d) + "-" + rest) == Some(ParseDigits(d))
  {
    LeadingZerosIgnored(z, d);
    SegmentOfStepPath(z + d, rest);
  }

  /** Exactly the steps 1..8 have a route. */
  lemma StepsWithRoutes(step: int)
    ensures PathForStep(step).Some? <==> 1 <= step <= 8
  {
  }

  /** Every milestone route is "/rb/", the step as two digits with a leading
      zero, '-' and a slug without '/'. */
  lemma PathShape(step: int, path: string)
    requires PathForStep(step) == Some(path)
    ensures 1 <= step <= 8
    ensures |path| > 7 && path[..7] == StepPrefix + ['0', path[5]] + "-"
    ensures IsDigit(path[5]) && DigitValue(path[5]) == step
    ensures '/' !in path[7..]
  {
    if step <= 4 { ShapeLow(step, path); } else { ShapeHigh(step, path); }
  }

  lemma ShapeLow(step: int, path: string)
    requires step <= 4 && PathForStep(step) == Some(path)
    ensures 1 <= step
    ensures |path| > 7 && path[..7] == StepPrefix + ['0', path[5]] + "-"
    ensures IsDigit(path[5]) && DigitValue(path[5]) == step
    ensures '/' !in path[7..]
  {
    if step == 1 { ShapeOf(1, path, '1', "problem"); }
    else if step == 2 { ShapeOf(2, path, '2', "market"); }
    else if step == 3 { ShapeOf(3, path, '3', "architecture"); }
    else { ShapeOf(4, path, '4', "hld"); }
  }

  lemma ShapeHigh(step: int, path: string)
    requires step > 4 && PathForStep(step) == Some(path)
    ensures step <= 8
    ensures |path| > 7 && path[..7] == StepPrefix + ['0', path[5]] + "-"
    ensures IsDigit(path[5]) && DigitValue(path[5]) == step
    ensures '/' !in path[7..]
  {
    if step == 5 { ShapeOf(5, path, '5', "lld"); }
    else if step == 6 { ShapeOf(6, path, '6', "build"); }
    else if step == 7 { ShapeOf(7, path, '7', "test"); }
    else { ShapeOf(8, path, '8', "ship"); }
  }

  lemma ShapeOf(step: int, path: string, c: char, slug: string)
    requires IsDigit(c) && DigitValue(c) == step && slug != [] && '/' !in slug
    requires path == StepPrefix + ['0', c] + "-" + slug
    ensures |path| > 7 && path[..7] == StepPrefix + ['0', path[5]] + "-"
    ensures IsDigit(path[5]) && DigitValue(path[5]) == step
    ensures '/' !in path[7..]
  {
    var head := StepPrefix + ['0', c] + "-";
    assert |head| == 7 && head[5] == c;
    assert path[..7] == head && path[7..] == slug;
  }

  lemma ParseTwoDigits(a: char, b: char)
    requires IsDigit(a) && IsDigit(b)
    ensures ParseDigits([a, b]) == DigitValue(a) * 10 + DigitValue(b)
  {
    var s := [a, b];
    assert s[..|s| - 1] == [a];
    assert [a][..0] == [];
    assert ParseDigits([a]) == ParseDigits([]) * 10 + DigitValue(a);
    assert ParseDigits(s) == ParseDigits([a]) * 10 + DigitValue(b);
  }

  /** A path whose first seven characters are "/rb/", two digits and '-'
      has those two digits as its step segment. */
  lemma TwoDigitSegment(path: string, d: string)
    requires |d| == 2 && AllDigits(d)
    requires |path| > 7 && path[..7] == StepPrefix + d + "-"
    ensures StepNumber(path) == Some(ParseDigits(d))
  {
    var rest := path[7..];
    assert path == path[..7] + rest;
    SegmentOfStepPath(d, rest);
  }

  /** A path that starts "/rb/0", a digit and '-' names that digit's step. */
  lemma StepOfShape(path: string)
    requires |path| > 7 && IsDigit(path[5]) && path[..7] == StepPrefix + ['0', path[5]] + "-"
    ensures StepNumber(path) == Some(DigitValue(path[5]))
  {
    ParseTwoDigits('0', path[5]);
    TwoDigitSegment(path, ['0', path[5]]);
  }

  /** Reading the step number out of a milestone's route gives the milestone back. */
  lemma StepOfPath(step: int, path: string)
    requires PathForStep(step) == Some(path)
    ensures StepNumber(path) == Some(step)
  {
    PathShape(step, path);
    StepOfShape(path);
  }

  /** A step route whose slug has no '/' is not the proof page: it does not
      contain "/rb/proof". */
  lemma StepRouteIsNotProofPath(d: string, rest: string)
    requires |d| >= 1 && AllDigits(d) && '/' !in rest
    ensures !Contains(StepPrefix + d + "-" + rest, "/rb/proof")
  {
    var path := StepPrefix + d + "-" + rest;
    var pat := "/rb/proof";
    forall i | 0 <= i <= |path| ensures !OccursAt(path, pat, i) {
      if i + |pat| <= |path| {
        var w := path[i..i + |pat|];
        if i == 0 {
          assert w[4] == d[0] != pat[4];
        } else if i == 1 {
          assert w[0] == 'r' != pat[0];
        } else if i == 2 {
          assert w[0] == 'b' != pat[0];
        } else if i == 3 {
          assert w[1] == d[0] != pat[1];
        } else if i < 4 + |d| {
          assert w[0] == d[i - 4] != pat[0];
        } else if i == 4 + |d| {
          assert w[0] == '-' != pat[0];
        } else {
          assert w[0] == rest[i - 5 - |d|] != pat[0];
        }
      }
    }
  }

  /** No milestone route is the proof page. */
  lemma StepPathIsNotProofPath(step: int, path: string)
    requires PathForStep(step) == Some(path)
    ensures !Contains(path, "/rb/proof")
  {
    PathShape(step, path);
    var d := ['0', path[5]];
    assert path == StepPrefix + d + "-" + path[7..];
    StepRouteIsNotProofPath(d, path[7..]);
  }
}
