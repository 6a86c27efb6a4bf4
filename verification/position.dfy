/** The submarine-piloting scripts. Each line is a direction and an amount:
    `forward` moves the submarine along, `down` and `up` change its depth,
    and any other direction is ignored. position.py works on Python integers
    and stops at the first malformed line; the Rust version skips malformed
    lines and keeps its position in `usize`, which cannot go below zero. */
module Position {
  import opened Util

  datatype Command = Command(direction: string, amount: int)

  /** The horizontal position and the depth. */
  datatype Sub = Sub(horz: int, depth: int)

  /** One command of the `if`/`elif` chain. */
  function Move(s: Sub, c: Command): Sub
  {
    if c.direction == "forward" then Sub(s.horz + c.amount, s.depth)
    else if c.direction == "down" then Sub(s.horz, s.depth + c.amount)
    else if c.direction == "up" then Sub(s.horz, s.depth - c.amount)
    else s
  }

  /** The position after the commands, starting from `horz, depth = 0, 0`. */
  function Pilot(cs: seq<Command>): Sub
  {
    if |cs| == 0 then Sub(0, 0) else Move(Pilot(cs[..|cs| - 1]), cs[|cs| - 1])
  }

  /** The total amount of the commands in direction `dir`. */
  function Total(cs: seq<Command>, dir: string): int
  {
    if |cs| == 0 then 0
    else Total(cs[..|cs| - 1], dir) + (if cs[|cs| - 1].direction == dir then cs[|cs| - 1].amount else 0)
  }

  /** The position is plain sums: everything moved forward, and everything
      moved down less everything moved up. */
  lemma {:induction false} PilotIsSums(cs: seq<Command>)
    ensures Pilot(cs) == Sub(Total(cs, "forward"), Total(cs, "down") - Total(cs, "up"))
  {
    if |cs| > 0 {
      PilotIsSums(cs[..|cs| - 1]);
    }
  }

  lemma {:induction false} TotalAppend(a: seq<Command>, b: seq<Command>, dir: string)
    ensures Total(a + b, dir) == Total(a, dir) + Total(b, dir)
    decreases |b|
  {
    if |b| == 0 {
      assert a + b == a;
    } else {
      assert (a + b)[..|a + b| - 1] == a + b[..|b| - 1];
      TotalAppend(a, b[..|b| - 1], dir);
    }
  }

  lemma {:induction false} TotalPermutation(a: seq<Command>, b: seq<Command>, dir: string)
    requires multiset(a) == multiset(b)
    ensures Total(a, dir) == Total(b, dir)
    decreases |a|
  {
    if |a| > 0 {
      var j := RemoveLast(a, b);
      TotalPermutation(a[..|a| - 1], b[..j] + b[j + 1..], dir);
      var x := b[j];
      assert b == b[..j] + [x] + b[j + 1..];
      TotalAppend(b[..j] + [x], b[j + 1..], dir);
      TotalAppend(b[..j], [x], dir);
      TotalAppend(b[..j], b[j + 1..], dir);
      assert Total([x], dir) == (if x.direction == dir then x.amount else 0) by {
        assert [x][..0] == [];
      }
    }
  }

  /** Reordering the commands does not change where the submarine ends. */
  lemma PilotPermutation(a: seq<Command>, b: seq<Command>)
    requires multiset(a) == multiset(b)
    ensures Pilot(a) == Pilot(b)
  {
    PilotIsSums(a);
    PilotIsSums(b);
    TotalPermutation(a, b, "forward");
    TotalPermutation(a, b, "down");
    TotalPermutation(a, b, "up");
  }

  // ---------------------------------------------------------------------------
  // position.py

  /** `direction, num = line.rstrip().split()` and `int(num)`: a line without
      exactly two words, or with an amount that is not an integer, raises a
      ValueError. */
  function PythonCommand(line: string): (r: Result<Command>)
    ensures r.Ok? <==> |Words(line)| == 2 && ParseInt(Words(line)[1]).Some?
    ensures r.Ok? ==> r.value == Command(Words(line)[0], ParseInt(Words(line)[1]).value)
  {
    WordsRStrip(line);
    var ws := Words(RStrip(line));
    if |ws| < 2 then Err("ValueError: not enough values to unpack")
    else if |ws| > 2 then Err("ValueError: too many values to unpack")
    else
      match ParseInt(ws[1])
      case Some(n) => Ok(Command(ws[0], n))
      case None => Err("ValueError: invalid literal for int()")
  }

  function PythonCommands(lines: seq<string>): (r: Result<seq<Command>>)
    ensures r.Ok? <==> forall i :: 0 <= i < |lines| ==> PythonCommand(lines[i]).Ok?
    ensures r.Ok? ==> |r.value| == |lines|
    ensures r.Ok? ==> forall i :: 0 <= i < |lines| ==> r.value[i] == PythonCommand(lines[i]).value
  {
    var r := AllOk(LineCommands(lines));
    assert forall i :: 0 <= i < |lines| ==> PythonCommand(lines[i]) == LineCommands(lines)[i];
    r
  }

  /** The outcome of each line on its own. */
  function LineCommands(lines: seq<string>): seq<Result<Command>>
  {
    seq(|lines|, i requires 0 <= i < |lines| => PythonCommand(lines[i]))
  }

  /** position.py: the product it prints. */
  function PythonPosition(lines: seq<string>): (r: Result<int>)
    ensures r.Ok? <==> PythonCommands(lines).Ok?
    ensures r.Ok? ==> (r.value == Total(PythonCommands(lines).value, "forward") *
      (Total(PythonCommands(lines).value, "down") - Total(PythonCommands(lines).value, "up")))
  {
    match PythonCommands(lines)
    case Err(msg) => Err(msg)
    case Ok(cs) =>
      var s := Pilot(cs);
      PilotIsSums(cs);
      assert s.horz == Total(cs, "forward") && s.depth == Total(cs, "down") - Total(cs, "up");
      Ok(s.horz * s.depth)
  }

  // ---------------------------------------------------------------------------
  // position (Rust)

  /** The commands the Rust version acts on: lines of exactly two words whose
      amount is a `usize`; the others are skipped. */
  function RustCommands(lines: seq<string>): (cs: seq<Command>)
    ensures |cs| <= |lines|
    ensures forall i :: 0 <= i < |cs| ==> 0 <= cs[i].amount <= UsizeMax
  {
    if |lines| == 0 then []
    else
      var front := RustCommands(lines[..|lines| - 1]);
      var ws := Words(lines[|lines| - 1]);
      if |ws| != 2 then front
      else
        match RustParse(ws[1], 0, UsizeMax)
        case Some(n) => front + [Command(ws[0], n)]
        case None => front
  }

  predicate InUsize(x: int)
  {
    0 <= x <= UsizeMax
  }

  /** The messages of Rust's overflow checks. */
  const AddOverflow := "attempt to add with overflow"
  const SubtractOverflow := "attempt to subtract with overflow"
  const MultiplyOverflow := "attempt to multiply with overflow"

  /** One command on `usize` counters: an `up` deeper than the current depth,
      or a sum past the largest `usize`, stops the program. */
  function RustMove(s: Sub, c: Command): (r: Result<Sub>)
    requires InUsize(s.horz) && InUsize(s.depth) && c.amount >= 0
    ensures r.Ok? <==> (InUsize(Move(s, c).horz) && InUsize(Move(s, c).depth)) || Move(s, c) == s
    ensures r.Ok? ==> r.value == Move(s, c)
  {
    var t := Move(s, c);
    if t == s then Ok(s)
    else if t.depth < 0 then Err(SubtractOverflow)
    else if t.horz > UsizeMax || t.depth > UsizeMax then Err(AddOverflow)
    else Ok(t)
  }

  /** The Rust loop over the commands it keeps. */
  function RustPilot(cs: seq<Command>): (r: Result<Sub>)
    requires forall i :: 0 <= i < |cs| ==> cs[i].amount >= 0
    ensures r.Ok? ==> InUsize(r.value.horz) && InUsize(r.value.depth)
  {
    if |cs| == 0 then Ok(Sub(0, 0))
    else
      match RustPilot(cs[..|cs| - 1])
      case Err(msg) => Err(msg)
      case Ok(s) => RustMove(s, cs[|cs| - 1])
  }

  /** Every prefix of the commands leaves the submarine within `usize`. */
  predicate StaysInUsize(cs: seq<Command>)
  {
    forall k :: 0 <= k <= |cs| ==> InUsize(Pilot(cs[..k]).horz) && InUsize(Pilot(cs[..k]).depth)
  }

  /** The Rust loop finishes exactly when no prefix leaves `usize`, and then
      it is where the Python loop would be. */
  lemma {:induction false} RustPilotAgrees(cs: seq<Command>)
    requires forall i :: 0 <= i < |cs| ==> cs[i].amount >= 0
    ensures RustPilot(cs).Ok? <==> StaysInUsize(cs)
    ensures RustPilot(cs).Ok? ==> RustPilot(cs).value == Pilot(cs)
  {
    assert cs[..|cs|] == cs;
    if |cs| > 0 {
      var n := |cs| - 1;
      var front := cs[..n];
      RustPilotAgrees(front);
      assert forall k :: 0 <= k <= n ==> cs[..k] == front[..k];
      if StaysInUsize(front) {
        var s := Pilot(front);
        assert InUsize(s.horz) && InUsize(s.depth) by {
          assert front[..n] == front;
        }
      }
    }
  }

  /** position (Rust): the product it prints, which must itself fit. */
  function RustPosition(lines: seq<string>): (r: Result<int>)
    ensures r.Ok? ==> InUsize(r.value)
    ensures r.Ok? <==> (StaysInUsize(RustCommands(lines)) &&
      InUsize(Pilot(RustCommands(lines)).horz * Pilot(RustCommands(lines)).depth))
    ensures r.Ok? ==> r.value == Pilot(RustCommands(lines)).horz * Pilot(RustCommands(lines)).depth
  {
    var cs := RustCommands(lines);
    RustPilotAgrees(cs);
    match RustPilot(cs)
    case Err(msg) => Err(msg)
    case Ok(s) => if s.horz * s.depth > UsizeMax then Err(MultiplyOverflow) else Ok(s.horz * s.depth)
  }

  /** On well-formed input whose amounts are `usize` numerals, the two
      versions act on the same commands. */
  lemma {:induction false} CommandsAgree(lines: seq<string>)
    requires forall i :: 0 <= i < |lines| ==>
      |Words(lines[i])| == 2 && IsDecimal(Words(lines[i])[1]) && DecimalValue(Words(lines[i])[1]) <= UsizeMax
    ensures PythonCommands(lines) == Ok(RustCommands(lines))
  {
    if |lines| > 0 {
      var n := |lines| - 1;
      var front := lines[..n];
      var w := Words(lines[n])[1];
      var c := Command(Words(lines[n])[0], DecimalValue(w));
      assert PythonCommands(front) == Ok(RustCommands(front)) by {
        assert forall i :: 0 <= i < n ==> front[i] == lines[i];
        CommandsAgree(front);
      }
      assert PythonCommand(lines[n]) == Ok(c) && RustParse(w, 0, UsizeMax) == Some(DecimalValue(w)) by {
        assert w[0] != '-' && w[0] != '+';
      }
      PythonCommandsSnoc(lines);
    }
  }

  /** A line that parses after lines that parse adds its command at the end. */
  lemma PythonCommandsSnoc(lines: seq<string>)
    requires |lines| > 0
    requires PythonCommands(lines[..|lines| - 1]).Ok? && PythonCommand(lines[|lines| - 1]).Ok?
    ensures PythonCommands(lines) ==
      Ok(PythonCommands(lines[..|lines| - 1]).value + [PythonCommand(lines[|lines| - 1]).value])
  {
    var n := |lines| - 1;
    var rs := LineCommands(lines);
    assert rs[..n] == LineCommands(lines[..n]);
    AllOkSnoc(rs);
  }


}
