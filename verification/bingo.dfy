/** The bingo script: boards are flat lists of 25 number tokens (row-major),
    drawn numbers are marked by overwriting them with "X", and a board wins
    when one of its five rows or five columns is all "X". */
module Bingo {
  import opened Util

  type Board = seq<string>

  const Mark: string := "X"

  /** The `winning` table: five rows, then five columns; no diagonals. */
  const Lines: seq<seq<nat>> := [
    [0, 1, 2, 3, 4], [5, 6, 7, 8, 9], [10, 11, 12, 13, 14],
    [15, 16, 17, 18, 19], [20, 21, 22, 23, 24], [0, 5, 10, 15, 20],
    [1, 6, 11, 16, 21], [2, 7, 12, 17, 22], [3, 8, 13, 18, 23],
    [4, 9, 14, 19, 24]]

  /** What `find_winner` does: returns True, falls off the end (None), or
      raises IndexError on a board too short for a line it inspects. */
  datatype Verdict = Winner | NoWinner | OutOfRange

  predicate InRange(board: Board, line: seq<nat>)
  {
    forall k :: 0 <= k < |line| ==> line[k] < |board|
  }

  predicate Complete(board: Board, line: seq<nat>)
  {
    forall k :: 0 <= k < |line| ==> line[k] < |board| && board[line[k]] == Mark
  }

  /** The loop over `winning` from entry `k` on. */
  function FindFrom(board: Board, k: nat): Verdict
    requires k <= |Lines|
    decreases |Lines| - k
  {
    if k == |Lines| then NoWinner
    else if !InRange(board, Lines[k]) then OutOfRange
    else if Complete(board, Lines[k]) then Winner
    else FindFrom(board, k + 1)
  }

  /** The cell in row `r`, column `c` of the row-major 5×5 layout. */
  function At(board: Board, r: nat, c: nat): string
    requires |board| >= 25 && r < 5 && c < 5
  {
    board[5 * r + c]
  }

  predicate RowFull(board: Board, r: nat)
    requires |board| >= 25 && r < 5
  {
    forall c :: 0 <= c < 5 ==> At(board, r, c) == Mark
  }

  predicate ColumnFull(board: Board, c: nat)
    requires |board| >= 25 && c < 5
  {
    forall r :: 0 <= r < 5 ==> At(board, r, c) == Mark
  }

  /** Independent statement of a win: some row or some column of the 5×5 grid
      is fully marked. */
  predicate HasBingo(board: Board)
    requires |board| >= 25
  {
    (exists r: nat :: r < 5 && RowFull(board, r)) || (exists c: nat :: c < 5 && ColumnFull(board, c))
  }

  lemma RowLine(r: nat)
    requires r < 5
    ensures |Lines[r]| == 5 && forall c :: 0 <= c < 5 ==> Lines[r][c] == 5 * r + c
  {
  }

  lemma ColumnLine(c: nat)
    requires c < 5
    ensures |Lines[5 + c]| == 5 && forall r :: 0 <= r < 5 ==> Lines[5 + c][r] == 5 * r + c
  {
  }

  lemma {:induction false} FindFromFullBoard(board: Board, k: nat)
    requires |board| >= 25 && k <= |Lines|
    ensures FindFrom(board, k) != OutOfRange
    ensures FindFrom(board, k) == Winner <==> exists j :: k <= j < |Lines| && Complete(board, Lines[j])
    decreases |Lines| - k
  {
    if k < |Lines| {
      assert InRange(board, Lines[k]) by {
        assert forall j, i :: 0 <= j < |Lines| && 0 <= i < |Lines[j]| ==> Lines[j][i] < 25;
      }
      FindFromFullBoard(board, k + 1);
    }
  }

  /** The ten entries of the table are exactly the five rows and five columns. */
  lemma LinesAreRowsAndColumns(board: Board)
    requires |board| >= 25
    ensures (exists j :: 0 <= j < |Lines| && Complete(board, Lines[j])) <==> HasBingo(board)
  {
    CompleteLineIsBingo(board);
    BingoIsCompleteLine(board);
  }

  lemma CompleteLineIsBingo(board: Board)
    requires |board| >= 25
    ensures (exists j :: 0 <= j < |Lines| && Complete(board, Lines[j])) ==> HasBingo(board)
  {
    if exists j :: 0 <= j < |Lines| && Complete(board, Lines[j]) {
      var j :| 0 <= j < |Lines| && Complete(board, Lines[j]);
      if j < 5 {
        RowLine(j);
        forall c | 0 <= c < 5
          ensures At(board, j, c) == Mark
        {
          assert board[Lines[j][c]] == Mark;
        }
        assert RowFull(board, j);
      } else {
        var c := j - 5;
        ColumnLine(c);
        forall r | 0 <= r < 5
          ensures At(board, r, c) == Mark
        {
          assert board[Lines[j][r]] == Mark;
        }
        assert ColumnFull(board, c);
      }
    }
  }

  lemma BingoIsCompleteLine(board: Board)
    requires |board| >= 25
    ensures HasBingo(board) ==> exists j :: 0 <= j < |Lines| && Complete(board, Lines[j])
  {
    if exists r: nat :: r < 5 && RowFull(board, r) {
      var r: nat :| r < 5 && RowFull(board, r);
      RowLine(r);
      forall k | 0 <= k < |Lines[r]|
        ensures Lines[r][k] < |board| && board[Lines[r][k]] == Mark
      {
        assert At(board, r, k) == Mark;
      }
      assert Complete(board, Lines[r]);
    }
    if exists c: nat :: c < 5 && ColumnFull(board, c) {
      var c: nat :| c < 5 && ColumnFull(board, c);
      ColumnLine(c);
      var line := Lines[5 + c];
      forall k | 0 <= k < |line|
        ensures line[k] < |board| && board[line[k]] == Mark
      {
        assert At(board, k, c) == Mark;
      }
      assert Complete(board, line);
    }
  }

  /** `find_winner`: on a board of at least 25 tokens it never raises, and it
      reports a winner exactly when some row or column is fully marked. */
  function FindWinner(board: Board): (v: Verdict)
    ensures |board| >= 25 ==> v != OutOfRange && (v == Winner <==> HasBingo(board))
  {
    if |board| >= 25 then
      FindFromFullBoard(board, 0);
      LinesAreRowsAndColumns(board);
      FindFrom(board, 0)
    else FindFrom(board, 0)
  }

  /** A board with no marks has no winning line. */
  lemma NoMarkNoWinner(board: Board)
    requires |board| >= 25 && Mark !in board
    ensures FindWinner(board) == NoWinner
  {
    forall r: nat | r < 5
      ensures !RowFull(board, r)
    {
      assert board[5 * r] == At(board, r, 0);
    }
    forall c: nat | c < 5
      ensures !ColumnFull(board, c)
    {
      assert board[c] == At(board, 0, c);
    }
  }

  /** The boards of `test_find_winner`: an unmarked board does not win, a full
      first row wins, a full first column wins. */
  lemma UnmarkedBoardDoesNotWin()
    ensures FindWinner(["31", "93", "46", "11", "30", "2", "45", "40", "69", "33", "82", "21",
                        "37", "99", "86", "57", "16", "34", "94", "85", "60", "49", "28", "14",
                        "65"]) == NoWinner
  {
    var b: Board := ["31", "93", "46", "11", "30", "2", "45", "40", "69", "33", "82", "21",
                     "37", "99", "86", "57", "16", "34", "94", "85", "60", "49", "28", "14", "65"];
    NoMarkNoWinner(b);
  }

  lemma FullRowWins()
    ensures FindWinner(["X", "X", "X", "X", "X", "2", "45", "40", "69", "33", "82", "21", "37",
                        "99", "86", "57", "16", "34", "94", "85", "60", "49", "28", "14", "65"]) == Winner
  {
    var b: Board := ["X", "X", "X", "X", "X", "2", "45", "40", "69", "33", "82", "21", "37",
                     "99", "86", "57", "16", "34", "94", "85", "60", "49", "28", "14", "65"];
    assert RowFull(b, 0);
  }

  lemma FullColumnWins()
    ensures FindWinner(["X", "93", "46", "11", "30", "X", "45", "40", "69", "33", "X", "21",
                        "37", "99", "86", "X", "16", "34", "94", "85", "X", "49", "28", "14",
                        "65"]) == Winner
  {
    var b: Board := ["X", "93", "46", "11", "30", "X", "45", "40", "69", "33", "X", "21",
                     "37", "99", "86", "X", "16", "34", "94", "85", "X", "49", "28", "14", "65"];
    FirstColumnWins(b);
  }

  lemma FirstColumnWins(b: Board)
    requires |b| >= 25 && b[0] == b[5] == b[10] == b[15] == b[20] == Mark
    ensures FindWinner(b) == Winner
  {
    assert ColumnFull(b, 0);
  }

  /** A fully marked diagonal is not a win. */
  lemma DiagonalDoesNotWin()
    ensures FindWinner(["X", "1", "2", "3", "4", "5", "X", "7", "8", "9", "10", "11", "X",
                        "13", "14", "15", "16", "17", "X", "19", "20", "21", "22", "23", "X"]) == NoWinner
  {
    var b: Board := ["X", "1", "2", "3", "4", "5", "X", "7", "8", "9", "10", "11", "X",
                     "13", "14", "15", "16", "17", "X", "19", "20", "21", "22", "23", "X"];
    forall r: nat | r < 5
      ensures !RowFull(b, r)
    {
      if r == 0 {
        assert At(b, 0, 1) != Mark;
      } else {
        assert At(b, r, 0) != Mark by {
          assert r == 1 || r == 2 || r == 3 || r == 4;
        }
      }
    }
    forall c: nat | c < 5
      ensures !ColumnFull(b, c)
    {
      if c == 0 {
        assert At(b, 1, 0) != Mark;
      } else {
        assert At(b, 0, c) != Mark by {
          assert c == 1 || c == 2 || c == 3 || c == 4;
        }
      }
    }
  }

  // ---------------------------------------------------------------------------
  // Marking

  /** The marking loop: every cell equal to the drawn number becomes "X". */
  function MarkNumber(board: Board, num: string): (m: Board)
    ensures |m| == |board|
    ensures forall i :: 0 <= i < |board| ==> (board[i] == num ==> m[i] == Mark) && (board[i] != num ==> m[i] == board[i])
  {
    seq(|board|, i requires 0 <= i < |board| => if board[i] == num then Mark else board[i])
  }

  /** A number that is not on the board changes nothing. */
  lemma MarkAbsent(board: Board, num: string)
    requires num !in board
    ensures MarkNumber(board, num) == board
  {
  }

  /** After marking, the drawn number is gone from the board (unless it is "X"),
      and every mark that was there is still there. */
  lemma MarkRemovesNumber(board: Board, num: string)
    requires num != Mark
    ensures num !in MarkNumber(board, num)
    ensures forall i :: 0 <= i < |board| && board[i] == Mark ==> MarkNumber(board, num)[i] == Mark
  {
  }

  lemma {:induction false} FindFromMonotone(board: Board, num: string, k: nat)
    requires k <= |Lines|
    requires FindFrom(board, k) == Winner
    ensures FindFrom(MarkNumber(board, num), k) == Winner
    decreases |Lines| - k
  {
    var m := MarkNumber(board, num);
    if !Complete(board, Lines[k]) {
      FindFromMonotone(board, num, k + 1);
    } else {
      assert Complete(m, Lines[k]);
    }
  }

  /** Marks are never removed, so a winning board stays winning after any draw. */
  lemma WinnerStaysWinner(board: Board, num: string)
    requires FindWinner(board) == Winner
    ensures FindWinner(MarkNumber(board, num)) == Winner
  {
    FindFromMonotone(board, num, 0);
  }

  // ---------------------------------------------------------------------------
  // Scores

  /** `sum(int(n) for n in board if n != 'X')`; None where `int` would raise. */
  function Total(board: Board): (t: Option<int>)
    ensures t.Some? <==> forall i :: 0 <= i < |board| && board[i] != Mark ==> ParseInt(board[i]).Some?
    ensures (forall i :: 0 <= i < |board| ==> board[i] == Mark) ==> t == Some(0)
  {
    if |board| == 0 then Some(0)
    else
      var last := board[|board| - 1];
      match Total(board[..|board| - 1])
      case None => None
      case Some(s) =>
        if last == Mark then Some(s)
        else match ParseInt(last)
          case Some(v) => Some(s + v)
          case None => None
  }

  /** Marking a number subtracts each of its occurrences from the total. */
  lemma {:induction false} TotalAfterMark(board: Board, num: string)
    requires num != Mark && ParseInt(num).Some?
    requires Total(board).Some?
    ensures Total(MarkNumber(board, num)).Some?
    ensures Total(MarkNumber(board, num)).value + Occurrences(board, num) * ParseInt(num).value == Total(board).value
    decreases |board|
  {
    if |board| > 0 {
      var n := |board| - 1;
      var front := board[..n];
      TotalAfterMark(front, num);
      MarkLast(board, num);
      var occ := Occurrences(front, num);
      var v := ParseInt(num).value;
      if board[n] == num {
        MulSucc(occ, v);
      }
    }
  }

  /** Marking commutes with dropping the last cell. */
  lemma MarkLast(board: Board, num: string)
    requires |board| > 0
    ensures MarkNumber(board, num) == MarkNumber(board[..|board| - 1], num) + [if board[|board| - 1] == num then Mark else board[|board| - 1]]
  {
  }

  // ---------------------------------------------------------------------------
  // Parsing

  /** All tokens of a board text, in order. */
  function Concat(groups: seq<seq<string>>): seq<string>
  {
    if |groups| == 0 then [] else groups[0] + Concat(groups[1..])
  }

  function AllWords(lines: seq<string>): seq<string>
  {
    if |lines| == 0 then [] else Words(RStrip(lines[0])) + AllWords(lines[1..])
  }

  /** The grouping loop of `main`, with `buffer` the board being collected:
      a line that is empty after `rstrip` closes a non-empty buffer, and every
      line's whitespace-separated tokens are appended to the buffer. */
  function Group(lines: seq<string>, buffer: seq<string>): (boards: seq<Board>)
    ensures forall k :: 0 <= k < |boards| ==> |boards[k]| > 0
    decreases |lines|
  {
    if |lines| == 0 then
      if |buffer| > 0 then [buffer] else []
    else
      var line := RStrip(lines[0]);
      if line == "" then
        var rest := Group(lines[1..], []);
        if |buffer| > 0 then [buffer] + rest else rest
      else
        Group(lines[1..], buffer + Words(line))
  }

  /** Grouping neither loses, reorders nor invents tokens. */
  lemma {:induction false} GroupKeepsTokens(lines: seq<string>, buffer: seq<string>)
    ensures Concat(Group(lines, buffer)) == buffer + AllWords(lines)
    decreases |lines|
  {
    if |lines| == 0 {
      if |buffer| > 0 {
        assert Concat([buffer]) == buffer + Concat([]) by {
          assert [buffer][1..] == [];
        }
      }
    } else {
      var line := RStrip(lines[0]);
      if line == "" {
        var rest := Group(lines[1..], []);
        GroupKeepsTokens(lines[1..], []);
        assert Words(line) == [];
        if |buffer| > 0 {
          assert ([buffer] + rest)[1..] == rest;
        }
      } else {
        GroupKeepsTokens(lines[1..], buffer + Words(line));
      }
    }
  }

  /** The boards read from the lines after the first; no tokens are lost,
      reordered or invented, and no board is empty. */
  function Boards(lines: seq<string>): (boards: seq<Board>)
    ensures forall k :: 0 <= k < |boards| ==> |boards[k]| > 0
    ensures Concat(boards) == AllWords(lines)
  {
    GroupKeepsTokens(lines, []);
    Group(lines, [])
  }

  /** A blank line closes the board being collected, if it holds any words,
      and the boards after it start afresh. */
  lemma {:induction false} BlankLineClosesBoard(a: seq<string>, b: string, rest: seq<string>, buffer: seq<string>)
    requires forall k :: 0 <= k < |a| ==> RStrip(a[k]) != ""
    requires RStrip(b) == ""
    ensures Group(a + [b] + rest, buffer) ==
      (if |buffer + AllWords(a)| > 0 then [buffer + AllWords(a)] else []) + Group(rest, [])
    decreases |a|
  {
    var lines := a + [b] + rest;
    if |a| == 0 {
      assert lines[1..] == rest;
      assert buffer + AllWords(a) == buffer;
    } else {
      var words := Words(RStrip(a[0]));
      assert lines[1..] == a[1..] + [b] + rest;
      BlankLineClosesBoard(a[1..], b, rest, buffer + words);
      AppendAssoc(buffer, words, AllWords(a[1..]));
    }
  }

  /** Text without blank lines is a single board. */
  lemma {:induction false} NoBlankLineOneBoard(lines: seq<string>, buffer: seq<string>)
    requires forall k :: 0 <= k < |lines| ==> RStrip(lines[k]) != ""
    requires |buffer| > 0
    ensures Group(lines, buffer) == [buffer + AllWords(lines)]
    decreases |lines|
  {
    if |lines| > 0 {
      var line := RStrip(lines[0]);
      NoBlankLineOneBoard(lines[1..], buffer + Words(line));
      assert buffer + Words(line) + AllWords(lines[1..]) == buffer + AllWords(lines);
    } else {
      assert buffer + AllWords(lines) == buffer;
    }
  }

  // ---------------------------------------------------------------------------
  // The game loop

  /** `Winner {i} = {total} * {num} = {product}`. */
  datatype Announcement = Announcement(board: nat, total: int, num: int)

  function Product(a: Announcement): int
  {
    a.total * a.num
  }

  /** `boards` with its current marks, the `won` set, what has been printed,
      and whether `sys.exit` has been reached. */
  datatype Game = Game(boards: seq<Board>, won: set<nat>, said: seq<Announcement>, over: bool)

  /** Every announced board is in `won`, and every board in `won` is winning. */
  predicate Consistent(g: Game)
  {
    (forall i :: i in g.won ==> i < |g.boards| && FindWinner(g.boards[i]) == Winner) &&
    (forall k :: 0 <= k < |g.said| ==> g.said[k].board in g.won)
  }

  /** One board of the inner loop: a board holding the number is marked; if
      it then wins it is announced (again, if it had already won) and added
      to `won`. IndexError and ValueError become `Err`. */
  function Visit(g: Game, num: string, i: nat): (r: Result<Game>)
    requires i < |g.boards|
    ensures r.Ok? ==> |r.value.boards| == |g.boards| && r.value.over == g.over
    ensures r.Ok? ==> g.won <= r.value.won <= g.won + {i} && g.said <= r.value.said
    ensures r.Ok? ==> forall j :: 0 <= j < |g.boards| && j != i ==> r.value.boards[j] == g.boards[j]
    ensures r.Ok? ==> r.value.boards[i] == MarkNumber(g.boards[i], num)
    ensures r.Ok? && i in r.value.won - g.won ==> FindWinner(r.value.boards[i]) == Winner
    ensures r.Ok? ==> forall k :: |g.said| <= k < |r.value.said| ==> r.value.said[k].board == i && i in r.value.won
    ensures r.Ok? ==> (|r.value.said| > |g.said| <==> num in g.boards[i] && FindWinner(MarkNumber(g.boards[i], num)) == Winner)
    ensures r.Ok? && |r.value.said| > |g.said| ==>
      |r.value.said| == |g.said| + 1 && Total(r.value.boards[i]).Some? && ParseInt(num).Some? &&
      r.value.said[|g.said|] == Announcement(i, Total(r.value.boards[i]).value, ParseInt(num).value)
    ensures var m := MarkNumber(g.boards[i], num);
      r.Err? <==> num in g.boards[i] && (FindWinner(m) == OutOfRange || (FindWinner(m) == Winner && (Total(m).None? || ParseInt(num).None?)))
  {
    if num !in g.boards[i] then
      MarkAbsent(g.boards[i], num);
      Ok(g)
    else
      var m := MarkNumber(g.boards[i], num);
      var g1 := g.(boards := g.boards[i := m]);
      match FindWinner(m)
      case OutOfRange => Err("IndexError: list index out of range")
      case NoWinner => Ok(g1)
      case Winner =>
        match (Total(m), ParseInt(num))
        case (Some(total), Some(n)) => Ok(g1.(won := g1.won + {i}, said := g1.said + [Announcement(i, total, n)]))
        case _ => Err("ValueError: invalid literal for int()")
  }

  /** A visit keeps the game consistent: marks never undo a win. */
  lemma VisitConsistent(g: Game, num: string, i: nat)
    requires i < |g.boards| && Consistent(g)
    ensures Visit(g, num, i).Ok? ==> Consistent(Visit(g, num, i).value)
  {
    var r := Visit(g, num, i);
    if r.Ok? {
      var g' := r.value;
      forall j | j in g'.won
        ensures j < |g'.boards| && FindWinner(g'.boards[j]) == Winner
      {
        if j == i && i in g.won {
          WinnerStaysWinner(g.boards[i], num);
        }
      }
      forall k | 0 <= k < |g'.said|
        ensures g'.said[k].board in g'.won
      {
        if k < |g.said| {
          assert g'.said[k] == g.said[k];
        }
      }
    }
  }

  /** The inner loop of one draw: boards `i` onward, ending the game once
      every board has won. */
  function Draw(g: Game, num: string, i: nat): (r: Result<Game>)
    requires i <= |g.boards|
    ensures r.Ok? ==> |r.value.boards| == |g.boards| && g.won <= r.value.won && g.said <= r.value.said
    decreases |g.boards| - i
  {
    if i == |g.boards| then Ok(g)
    else
      match Visit(g, num, i)
      case Err(e) => Err(e)
      case Ok(g2) =>
        if |g2.won| == |g2.boards| then Ok(g2.(over := true))
        else Draw(g2, num, i + 1)
  }

  lemma {:induction false} DrawConsistent(g: Game, num: string, i: nat)
    requires i <= |g.boards| && Consistent(g)
    ensures Draw(g, num, i).Ok? ==> Consistent(Draw(g, num, i).value)
    decreases |g.boards| - i
  {
    if i < |g.boards| {
      VisitConsistent(g, num, i);
      var v := Visit(g, num, i);
      if v.Ok? && |v.value.won| != |v.value.boards| {
        DrawConsistent(v.value, num, i + 1);
      }
    }
  }

  /** The outer loop over the drawn numbers, stopping at `sys.exit`. */
  function Play(g: Game, nums: seq<string>): (r: Result<Game>)
    ensures r.Ok? ==> |r.value.boards| == |g.boards| && g.won <= r.value.won && g.said <= r.value.said
    ensures r.Ok? && !r.value.over ==> !g.over
    decreases |nums|
  {
    if |nums| == 0 || g.over then Ok(g)
    else
      match Draw(g, nums[0], 0)
      case Err(e) => Err(e)
      case Ok(g1) => Play(g1, nums[1..])
  }

  lemma {:induction false} PlayConsistent(g: Game, nums: seq<string>)
    requires Consistent(g)
    ensures Play(g, nums).Ok? ==> Consistent(Play(g, nums).value)
    decreases |nums|
  {
    if |nums| > 0 && !g.over {
      DrawConsistent(g, nums[0], 0);
      var d := Draw(g, nums[0], 0);
      if d.Ok? {
        PlayConsistent(d.value, nums[1..]);
      }
    }
  }

  /** The whole script on its input lines: the first line holds the drawn
      numbers separated by commas, the rest hold the boards. On an empty
      file `readline` returns "", so there is one empty number and no board. */
  function Bingo(lines: seq<string>): (r: Result<Game>)
    ensures r.Ok? ==> Consistent(r.value)
    ensures |lines| <= 1 ==> r == Ok(Game([], {}, [], false))
  {
    var nums := SplitOn(if |lines| == 0 then "" else RStrip(lines[0]), ',');
    var boards := Boards(if |lines| == 0 then [] else lines[1..]);
    PlayConsistent(Game(boards, {}, [], false), nums);
    PlayNoBoards(Game(boards, {}, [], false), nums);
    Play(Game(boards, {}, [], false), nums)
  }

  /** With no boards every draw does nothing, and nothing is printed. */
  lemma {:induction false} PlayNoBoards(g: Game, nums: seq<string>)
    ensures g.boards == [] ==> Play(g, nums) == Ok(g)
    decreases |nums|
  {
    if g.boards == [] && |nums| > 0 && !g.over {
      assert Draw(g, nums[0], 0) == Ok(g);
      PlayNoBoards(g, nums[1..]);
    }
  }

  /** A board that has already won is announced again by every later draw of
      a number that is still on it. */
  lemma {:induction false} WinnerAnnouncedAgain(g: Game, num: string, i: nat)
    requires i < |g.boards| && !g.over
    requires FindWinner(g.boards[i]) == Winner
    requires num in g.boards[i] && num != Mark && ParseInt(num).Some?
    requires Total(g.boards[i]).Some?
    ensures Draw(g, num, i).Ok? ==>
      exists k :: |g.said| <= k < |Draw(g, num, i).value.said| && Draw(g, num, i).value.said[k].board == i
  {
    var m := MarkNumber(g.boards[i], num);
    WinnerStaysWinner(g.boards[i], num);
    TotalAfterMark(g.boards[i], num);
    var g1 := g.(boards := g.boards[i := m]);
    var a := Announcement(i, Total(m).value, ParseInt(num).value);
    var g2 := g1.(won := g1.won + {i}, said := g1.said + [a]);
    assert g2.said[|g.said|] == a;
    if |g2.won| != |g2.boards| {
      var r := Draw(g2, num, i + 1);
      if r.Ok? {
        assert g2.said <= r.value.said;
        assert r.value.said[|g.said|] == a;
      }
    }
  }
}
