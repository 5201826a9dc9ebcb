/**
 * The SVG path reader of src/lib/embroidery/path-converter.ts. Path data is
 * cut into commands, each a letter followed by its numbers; the commands
 * M, L, H, V, C and Z of section 8.3 of SVG 1.1 (upper case absolute, lower
 * case relative) move a current point and emit points, and the paths that
 * give more than two points are scaled to the target size.
 *
 * Unlike section 8.3.3, Z appends a copy of the path's first point without
 * moving the current point there. The numbers of a command are read by the
 * `numbers` parameter, which stands for `.trim().split(/[\s,]+/).map(Number)`.
 */
module PathConverter {
  import opened Types
  import Streams

  /** One command: its letter and its numbers. */
  datatype Command = Command(letter: char, args: seq<real>)

  /** The current point and the points emitted so far. */
  datatype PathState = PathState(x: real, y: real, points: seq<Point>)

  // ---------------------------------------------------------------------
  // Cutting path data into commands: `match(/[a-zA-Z][^a-zA-Z]*/g) || []`

  predicate IsLetter(c: char) {
    ('a' <= c <= 'z') || ('A' <= c <= 'Z')
  }

  /** The index of the first letter at or after `from`, or |s|. */
  function NextLetter(s: string, from: nat): (i: nat)
    requires from <= |s|
    ensures from <= i <= |s| && (i < |s| ==> IsLetter(s[i]))
    ensures forall k :: from <= k < i ==> !IsLetter(s[k])
    decreases |s| - from
  {
    if from == |s| || IsLetter(s[from]) then from else NextLetter(s, from + 1)
  }

  /** The regular expression's matches: a letter and the non-letters after it, in order. */
  function Chunks(s: string): seq<string>
    decreases |s|
  {
    var i := NextLetter(s, 0);
    if i == |s| then []
    else
      var j := NextLetter(s, i + 1);
      [s[i..j]] + Chunks(s[j..])
  }

  /** A match: a letter followed by non-letters only. */
  predicate IsChunk(c: string) {
    |c| > 0 && IsLetter(c[0]) && forall k :: 1 <= k < |c| ==> !IsLetter(c[k])
  }

  /** Every match is a letter followed by non-letters only. */
  lemma {:induction false} ChunkShape(s: string)
    ensures forall k :: 0 <= k < |Chunks(s)| ==> IsChunk(Chunks(s)[k])
    decreases |s|
  {
    var i := NextLetter(s, 0);
    if i < |s| {
      var j := NextLetter(s, i + 1);
      ChunkShape(s[j..]);
      var c := s[i..j];
      forall k | 1 <= k < |c|
        ensures !IsLetter(c[k])
      {
        assert c[k] == s[i + k];
      }
      assert IsChunk(c);
      var rest := Chunks(s[j..]);
      assert Chunks(s) == [c] + rest;
      forall k | 0 <= k < |Chunks(s)|
        ensures IsChunk(Chunks(s)[k])
      {
        if k > 0 {
          assert Chunks(s)[k] == rest[k - 1];
        }
      }
    }
  }

  /** The path data after a match starts at a letter or is empty. */
  lemma AfterMatch(s: string, j: nat)
    requires 0 < j <= |s| && (j < |s| ==> IsLetter(s[j]))
    ensures NextLetter(s[j..], 0) == 0
  {
  }

  /** A match s[i..j] followed by parts that cover s[j..] covers s[i..]. */
  lemma CoverStep(s: string, i: nat, j: nat, cs: seq<string>, tail: seq<string>)
    requires i < j <= |s| && cs == [s[i..j]] + tail && Streams.Concat(tail) == s[j..]
    ensures Streams.Concat(cs) == s[i..]
  {
    Streams.ConcatHead(cs);
    assert cs[1..] == tail;
    assert s[i..j] + s[j..] == s[i..];
  }

  /** Together the matches are the path data without the non-letters before its first letter. */
  lemma {:induction false} ChunksCoverData(s: string)
    ensures Streams.Concat(Chunks(s)) == s[NextLetter(s, 0)..]
    decreases |s|
  {
    var i := NextLetter(s, 0);
    if i < |s| {
      var j := NextLetter(s, i + 1);
      ChunksCoverData(s[j..]);
      AfterMatch(s, j);
      CoverStep(s, i, j, Chunks(s), Chunks(s[j..]));
    }
  }

  /** The commands of path data, each letter with the numbers after it. */
  function Commands(pathData: string, numbers: string -> seq<real>): (r: seq<Command>)
    ensures |r| == |Chunks(pathData)|
  {
    var chunks := Chunks(pathData);
    seq(|chunks|, i requires 0 <= i < |chunks| =>
      var c := chunks[i];
      if |c| == 0 then Command(' ', []) else Command(c[0], numbers(c[1..])))
  }

  // ---------------------------------------------------------------------
  // The commands

  /** `type.toUpperCase()` for an ASCII letter. */
  function Upper(c: char): char {
    if 'a' <= c <= 'z' then (c as int - 32) as char else c
  }

  /** How many numbers a command reads. */
  function Arity(letter: char): nat {
    match Upper(letter)
    case 'M' => 2
    case 'L' => 2
    case 'H' => 1
    case 'V' => 1
    case 'C' => 6
    case _ => 0
  }

  /** A command that carries every number it reads. */
  predicate Complete(cmd: Command) {
    |cmd.args| >= Arity(cmd.letter)
  }

  /** An upper-case letter takes its numbers as coordinates, a lower-case one as offsets from the current point. */
  function Coord(absolute: bool, current: real, arg: real): real {
    if absolute then arg else current + arg
  }

  /** cubicBezier. */
  function Bezier(p0: Point, p1: Point, p2: Point, p3: Point, t: real): (r: Point)
    ensures t == 0.0 ==> r == p0
    ensures t == 1.0 ==> r == p3
  {
    var mt := 1.0 - t;
    Point(mt * mt * mt * p0.x + 3.0 * mt * mt * t * p1.x + 3.0 * mt * t * t * p2.x + t * t * t * p3.x,
          mt * mt * mt * p0.y + 3.0 * mt * mt * t * p1.y + 3.0 * mt * t * t * p2.y + t * t * t * p3.y)
  }

  /** The curve sampled at t = 0, 0.1, ..., (n - 1) / 10. */
  function Samples(p0: Point, p1: Point, p2: Point, p3: Point, n: nat): (r: seq<Point>)
    ensures |r| == n
  {
    seq(n, k requires 0 <= k < n => Bezier(p0, p1, p2, p3, k as real / 10.0))
  }

  /** The state after one command. */
  function Step(s: PathState, cmd: Command): (r: PathState)
    requires Complete(cmd)
    ensures s.points <= r.points && |r.points| <= |s.points| + 11
  {
    var a := cmd.args;
    var absolute := cmd.letter == Upper(cmd.letter);
    match Upper(cmd.letter)
    case 'M' =>
      var x := Coord(absolute, s.x, a[0]);
      var y := Coord(absolute, s.y, a[1]);
      PathState(x, y, s.points + [Point(x, y)])
    case 'L' =>
      var x := Coord(absolute, s.x, a[0]);
      var y := Coord(absolute, s.y, a[1]);
      PathState(x, y, s.points + [Point(x, y)])
    case 'H' =>
      var x := Coord(absolute, s.x, a[0]);
      PathState(x, s.y, s.points + [Point(x, s.y)])
    case 'V' =>
      var y := Coord(absolute, s.y, a[0]);
      PathState(s.x, y, s.points + [Point(s.x, y)])
    case 'C' =>
      var p0 := Point(s.x, s.y);
      var p1 := Point(Coord(absolute, s.x, a[0]), Coord(absolute, s.y, a[1]));
      var p2 := Point(Coord(absolute, s.x, a[2]), Coord(absolute, s.y, a[3]));
      var p3 := Point(Coord(absolute, s.x, a[4]), Coord(absolute, s.y, a[5]));
      PathState(p3.x, p3.y, s.points + Samples(p0, p1, p2, p3, 11))
    case 'Z' =>
      if |s.points| > 0 then s.(points := s.points + [s.points[0]]) else s
    case _ => s
  }

  /** Commands that each carry the numbers they read. */
  predicate AllComplete(cmds: seq<Command>) {
    forall i :: 0 <= i < |cmds| ==> Complete(cmds[i])
  }

  /** The state after a sequence of commands, from the origin with no points. */
  function Run(cmds: seq<Command>): PathState
    requires AllComplete(cmds)
  {
    if cmds == [] then PathState(0.0, 0.0, [])
    else Step(Run(cmds[..|cmds| - 1]), cmds[|cmds| - 1])
  }

  /** Running one more command is one more step. */
  lemma RunSnoc(cmds: seq<Command>, i: nat)
    requires AllComplete(cmds) && i < |cmds|
    ensures AllComplete(cmds[..i]) && AllComplete(cmds[..i + 1])
    ensures Run(cmds[..i + 1]) == Step(Run(cmds[..i]), cmds[i])
  {
    assert cmds[..i + 1][..i] == cmds[..i];
  }

  /** Path data whose every command carries the numbers it reads. */
  predicate Readable(pathData: string, numbers: string -> seq<real>) {
    AllComplete(Commands(pathData, numbers))
  }

  /** The points a path gives. */
  function PathPoints(pathData: string, numbers: string -> seq<real>): seq<Point>
    requires Readable(pathData, numbers)
  {
    Run(Commands(pathData, numbers)).points
  }

  /**
   * The switch on one command: moves the current point and appends the
   * points the command emits, as Step says.
   */
  method ApplyCommand(cmd: Command, x: real, y: real, points: seq<Point>)
    returns (currentX: real, currentY: real, out: seq<Point>)
    requires Complete(cmd)
    ensures PathState(currentX, currentY, out) == Step(PathState(x, y, points), cmd)
  {
    var a := cmd.args;
    var absolute := cmd.letter == Upper(cmd.letter);
    currentX, currentY, out := x, y, points;
    match Upper(cmd.letter) {
    case 'M' =>
      currentX := Coord(absolute, currentX, a[0]);
      currentY := Coord(absolute, currentY, a[1]);
      out := out + [Point(currentX, currentY)];
    case 'L' =>
      currentX := Coord(absolute, currentX, a[0]);
      currentY := Coord(absolute, currentY, a[1]);
      out := out + [Point(currentX, currentY)];
    case 'H' =>
      currentX := Coord(absolute, currentX, a[0]);
      out := out + [Point(currentX, currentY)];
    case 'V' =>
      currentY := Coord(absolute, currentY, a[0]);
      out := out + [Point(currentX, currentY)];
    case 'C' =>
      var p0 := Point(currentX, currentY);
      var p1 := Point(Coord(absolute, currentX, a[0]), Coord(absolute, currentY, a[1]));
      var p2 := Point(Coord(absolute, currentX, a[2]), Coord(absolute, currentY, a[3]));
      var p3 := Point(Coord(absolute, currentX, a[4]), Coord(absolute, currentY, a[5]));
      var t := 0.0;
      ghost var k := 0;
      while t <= 1.0
        invariant 0 <= k <= 11 && t == k as real / 10.0
        invariant out == points + Samples(p0, p1, p2, p3, k)
        decreases 11 - k
      {
        out := out + [Bezier(p0, p1, p2, p3, t)];
        t := t + 0.1;
        k := k + 1;
      }
      assert k == 11;
      currentX := p3.x;
      currentY := p3.y;
    case 'Z' =>
      if |out| > 0 {
        out := out + [out[0]];
      }
    case _ =>
    }
  }

  /** parseSvgPath. */
  method ParseSvgPath(pathData: string, numbers: string -> seq<real>) returns (points: seq<Point>)
    requires Readable(pathData, numbers)
    ensures points == PathPoints(pathData, numbers)
  {
    var commands := Commands(pathData, numbers);
    points := [];
    var currentX, currentY := 0.0, 0.0;
    var i := 0;
    while i < |commands|
      invariant 0 <= i <= |commands|
      invariant PathState(currentX, currentY, points) == Run(commands[..i])
    {
      RunSnoc(commands, i);
      currentX, currentY, points := ApplyCommand(commands[i], currentX, currentY, points);
      i := i + 1;
    }
    assert commands[..i] == commands;
  }

  // ---------------------------------------------------------------------
  // Whole paths

  /** The target size and the size the paths were drawn at. */
  datatype PathSettings = PathSettings(width: real, height: real, originalWidth: real, originalHeight: real)

  /** The uniform scale that fits the original size into the target. */
  function Scale(settings: PathSettings): real
    requires settings.originalWidth != 0.0 && settings.originalHeight != 0.0
  {
    var sx := settings.width / settings.originalWidth;
    var sy := settings.height / settings.originalHeight;
    if sx <= sy then sx else sy
  }

  function Scaled(points: seq<Point>, scale: real): (r: seq<Point>)
    ensures |r| == |points|
  {
    seq(|points|, i requires 0 <= i < |points| => Point(points[i].x * scale, points[i].y * scale))
  }

  /** The points of every path. */
  function Parsed(paths: seq<string>, numbers: string -> seq<real>): (r: seq<seq<Point>>)
    requires forall i :: 0 <= i < |paths| ==> Readable(paths[i], numbers)
    ensures |r| == |paths| && forall i :: 0 <= i < |paths| ==> r[i] == PathPoints(paths[i], numbers)
  {
    if paths == [] then []
    else
      assert Readable(paths[|paths| - 1], numbers);
      Parsed(paths[..|paths| - 1], numbers) + [PathPoints(paths[|paths| - 1], numbers)]
  }

  /** The point lists with more than two points, scaled, in order. */
  function Kept(parsed: seq<seq<Point>>, scale: real): seq<seq<Point>> {
    if parsed == [] then []
    else
      var points := parsed[|parsed| - 1];
      Kept(parsed[..|parsed| - 1], scale) + (if |points| > 2 then [Scaled(points, scale)] else [])
  }

  /** Keeping one more point list adds it, scaled, when it has more than two points. */
  lemma KeptSnoc(parsed: seq<seq<Point>>, i: nat, scale: real)
    requires i < |parsed|
    ensures Kept(parsed[..i + 1], scale) ==
      Kept(parsed[..i], scale) + (if |parsed[i]| > 2 then [Scaled(parsed[i], scale)] else [])
  {
    assert parsed[..i + 1][..i] == parsed[..i];
  }

  /** svgPathsToPoints. */
  method SvgPathsToPoints(paths: seq<string>, settings: PathSettings, numbers: string -> seq<real>)
    returns (contours: seq<seq<Point>>)
    requires settings.originalWidth != 0.0 && settings.originalHeight != 0.0
    requires forall i :: 0 <= i < |paths| ==> Readable(paths[i], numbers)
    ensures contours == Kept(Parsed(paths, numbers), Scale(settings))
  {
    contours := [];
    var scale := Scale(settings);
    ghost var parsed := Parsed(paths, numbers);
    var i := 0;
    while i < |paths|
      invariant 0 <= i <= |paths| && contours == Kept(parsed[..i], scale)
    {
      var points := ParseSvgPath(paths[i], numbers);
      KeptSnoc(parsed, i, scale);
      if |points| > 2 {
        var scaledPoints := Scaled(points, scale);
        contours := contours + [scaledPoints];
      }
      i := i + 1;
    }
    assert parsed[..i] == parsed;
  }

  // ---------------------------------------------------------------------
  // Properties

  /**
   * M and L move to the given pair (a point for upper case, an offset from
   * the current point for lower case) and emit that one point; H and V
   * change only x or only y and emit one point; any other letter but C and
   * Z changes nothing.
   */
  lemma LineCommands(s: PathState, cmd: Command)
    requires Complete(cmd)
    ensures var u := Upper(cmd.letter);
      var absolute := cmd.letter == u;
      var r := Step(s, cmd);
      ((u == 'M' || u == 'L') ==>
        r.x == (if absolute then cmd.args[0] else s.x + cmd.args[0]) &&
        r.y == (if absolute then cmd.args[1] else s.y + cmd.args[1]) &&
        r.points == s.points + [Point(r.x, r.y)]) &&
      (u == 'H' ==>
        r.x == (if absolute then cmd.args[0] else s.x + cmd.args[0]) && r.y == s.y &&
        r.points == s.points + [Point(r.x, r.y)]) &&
      (u == 'V' ==>
        r.x == s.x && r.y == (if absolute then cmd.args[0] else s.y + cmd.args[0]) &&
        r.points == s.points + [Point(r.x, r.y)]) &&
      (u !in {'M', 'L', 'H', 'V', 'C', 'Z'} ==> r == s)
  {
  }

  /**
   * C emits eleven points along the curve, the first at the current point
   * and the last at the end point, and moves the current point to the end
   * point.
   */
  lemma CurveCommand(s: PathState, cmd: Command)
    requires Complete(cmd) && Upper(cmd.letter) == 'C'
    ensures var absolute := cmd.letter == 'C';
      var endX := if absolute then cmd.args[4] else s.x + cmd.args[4];
      var endY := if absolute then cmd.args[5] else s.y + cmd.args[5];
      var r := Step(s, cmd);
      r.x == endX && r.y == endY && |r.points| == |s.points| + 11 &&
      r.points[..|s.points|] == s.points &&
      r.points[|s.points|] == Point(s.x, s.y) && r.points[|s.points| + 10] == Point(endX, endY)
  {
    var r := Step(s, cmd);
    var a := cmd.args;
    var absolute := cmd.letter == Upper(cmd.letter);
    var p0 := Point(s.x, s.y);
    var p1 := Point(Coord(absolute, s.x, a[0]), Coord(absolute, s.y, a[1]));
    var p2 := Point(Coord(absolute, s.x, a[2]), Coord(absolute, s.y, a[3]));
    var p3 := Point(Coord(absolute, s.x, a[4]), Coord(absolute, s.y, a[5]));
    assert r.points == s.points + Samples(p0, p1, p2, p3, 11);
    assert r.points[|s.points|] == Bezier(p0, p1, p2, p3, 0.0);
    assert r.points[|s.points| + 10] == Bezier(p0, p1, p2, p3, 10 as real / 10.0);
  }

  /** Z appends a copy of the path's first point and keeps the current point; on an empty path it does nothing. */
  lemma CloseCommand(s: PathState, cmd: Command)
    requires Complete(cmd) && Upper(cmd.letter) == 'Z'
    ensures Step(s, cmd).x == s.x && Step(s, cmd).y == s.y
    ensures Step(s, cmd).points == if |s.points| > 0 then s.points + [s.points[0]] else s.points
  {
  }

  /** Commands only ever append points: earlier points are never changed. */
  lemma {:induction false} RunExtends(cmds: seq<Command>, i: nat)
    requires AllComplete(cmds) && i <= |cmds|
    ensures Run(cmds[..i]).points <= Run(cmds).points
    decreases |cmds|
  {
    if i < |cmds| {
      var n := |cmds| - 1;
      assert cmds[..n][..i] == cmds[..i];
      RunExtends(cmds[..n], i);
      assert cmds[..n] == cmds[..|cmds| - 1];
    } else {
      assert cmds[..i] == cmds;
    }
  }

  /** The contours are the paths with more than two points, each scaled uniformly, in path order. */
  lemma {:induction false} KeptAreLong(parsed: seq<seq<Point>>, scale: real)
    ensures forall c :: c in Kept(parsed, scale) ==> |c| > 2
    ensures forall i :: 0 <= i < |parsed| && |parsed[i]| > 2 ==> Scaled(parsed[i], scale) in Kept(parsed, scale)
    ensures |Kept(parsed, scale)| <= |parsed|
  {
    if parsed != [] {
      var n := |parsed| - 1;
      KeptAreLong(parsed[..n], scale);
      var before := Kept(parsed[..n], scale);
      var added := if |parsed[n]| > 2 then [Scaled(parsed[n], scale)] else [];
      assert Kept(parsed, scale) == before + added;
      forall i | 0 <= i < |parsed| && |parsed[i]| > 2
        ensures Scaled(parsed[i], scale) in Kept(parsed, scale)
      {
        if i < n {
          assert parsed[..n][i] == parsed[i];
        }
      }
    }
  }
}
