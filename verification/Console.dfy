/** The line editor of the console: scancodes in, a line in the caller's buffer and its echo on the screen. */
module Console {
  import opened Common

  const COLUMNS: nat := 80
  const ASCII_BS: byte := 8
  const NEWLINE: byte := 10
  const RETURN: byte := 13
  const BLANK: byte := 32
  const BRAKE: byte := 0x80

  /** Video memory in 16-bit cells: what is mapped from 0xb8000 on. */
  const CELLS: nat := 0x4000

  type cell = x: nat | x < 0x1_0000

  type place = p: nat | p < CELLS

  // ---- the keyboard table ----

  /** Eight make codes a row, as ASCII codes; zero where the keyboard driver has no character. */
  function KeymapRow(row: int): (r: seq<byte>)
    ensures |r| == 8 && RETURN !in r
  {
    match row
    case 0 => [0, 27, 49, 50, 51, 52, 53, 54]
    case 1 => [55, 56, 57, 48, 45, 94, 8, 9]
    case 2 => [113, 119, 101, 114, 116, 121, 117, 105]
    case 3 => [111, 112, 64, 91, 10, 0, 97, 115]
    case 4 => [100, 102, 103, 104, 106, 107, 108, 59]
    case 5 => [58, 0, 0, 93, 122, 120, 99, 118]
    case 6 => [98, 110, 109, 44, 46, 47, 0, 42]
    case 7 => [0, 32, 0, 0, 0, 0, 0, 0]
    case 8 => [0, 0, 0, 0, 0, 0, 0, 55]
    case 9 => [56, 57, 45, 52, 53, 54, 43, 49]
    case 10 => [50, 51, 48, 46, 0, 0, 0, 0]
    case 14 => [0, 0, 0, 95, 0, 0, 0, 0]
    case 15 => [0, 0, 0, 0, 0, 92, 0, 0]
    case _ => [0, 0, 0, 0, 0, 0, 0, 0]
  }

  function Keymap(code: byte): byte
    requires code < BRAKE
  {
    KeymapRow(code as int / 8)[code as int % 8]
  }

  /** What the keys stand for: codes are counted from 1, Escape, and the keys not mentioned have no character. */
  lemma UpperKeys(code: byte)
    requires code < 0x1e
    ensures var c, n := Keymap(code) as int, code as int;
      if n == 0x01 then c == 27
      else if 0x02 <= n < 0x0e then c == "1234567890-^"[n - 0x02] as int
      else if n == 0x0e then c == 8
      else if n == 0x0f then c == 9
      else if 0x10 <= n < 0x1c then c == "qwertyuiop@["[n - 0x10] as int
      else if n == 0x1c then c == 10
      else c == 0
  {
    RowAndKey(code as int);
  }

  lemma LowerKeys(code: byte)
    requires 0x1e <= code < 0x40
    ensures var c, n := Keymap(code) as int, code as int;
      if n < 0x29 then c == "asdfghjkl;:"[n - 0x1e] as int
      else if 0x2b <= n < 0x36 then c == "]zxcvbnm,./"[n - 0x2b] as int
      else if n == 0x37 then c == '*' as int
      else if n == 0x39 then c == 32
      else c == 0
  {
    RowAndKey(code as int);
  }

  lemma OtherKeys(code: byte)
    requires 0x40 <= code < 0x80
    ensures var c, n := Keymap(code) as int, code as int;
      if 0x47 <= n < 0x54 then c == "789-456+1230."[n - 0x47] as int
      else if n == 0x73 then c == '_' as int
      else if n == 0x7d then c == '\\' as int
      else c == 0
  {
    RowAndKey(code as int);
  }

  lemma RowAndKey(n: int)
    requires 0 <= n < 0x80
    ensures n == 8 * (n / 8) + n % 8 && 0 <= n / 8 < 16
  {
  }

  lemma NoReturnKey(code: byte)
    requires code < BRAKE
    ensures Keymap(code) != RETURN
  {
    assert Keymap(code) in KeymapRow(code as int / 8);
  }

  type Cells = s: seq<cell> | |s| == CELLS witness seq(CELLS, _ => 0)

  // ---- the editor on values ----

  /** What happens while get_line waits: a scancode arrives, or another task writes a cell of the screen. */
  datatype Input = Key(code: byte) | Drawn(at: place, value: cell) {
    /** A make code, which ends the wait. */
    predicate Pressed() {
      Key? && code < BRAKE
    }
  }

  /** Why get_line is where it is: it waits for a key, the line is full, or a newline has ended it. */
  datatype Phase = Waiting | Full | Entered

  /** What get_line has got to: the line, the inputs not yet read, and its phase. */
  datatype Editor = Editor(line: seq<byte>, rest: seq<Input>, phase: Phase)

  /** A stack editor: break codes do nothing, backspace pops if it can, newline or a full line ends. */
  function Edit(line: seq<byte>, inputs: seq<Input>, room: nat): (r: Editor)
    requires |line| <= room
    ensures |r.line| <= room
    ensures r.phase.Waiting? ==> r.rest == [] && |r.line| < room
    decreases |inputs|
  {
    if |line| == room then Editor(line, inputs, Full)
    else if inputs == [] then Editor(line, inputs, Waiting)
    else if !inputs[0].Pressed() then Edit(line, inputs[1..], room)
    else
      var c := Keymap(inputs[0].code);
      if c == NEWLINE then Editor(line, inputs[1..], Entered)
      else Edit(Press(line, c), inputs[1..], room)
  }

  function Press(line: seq<byte>, c: byte): seq<byte> {
    if c != ASCII_BS then line + [c]
    else if line == [] then line
    else line[..|line| - 1]
  }

  /** The greatest length the line ever has. */
  function Extent(line: seq<byte>, inputs: seq<Input>, room: nat): (n: nat)
    requires |line| <= room
    ensures |line| <= n <= room
    decreases |inputs|
  {
    if |line| == room || inputs == [] then |line|
    else if !inputs[0].Pressed() then Extent(line, inputs[1..], room)
    else
      var c := Keymap(inputs[0].code);
      if c == NEWLINE then |line| else Max(|line|, Extent(Press(line, c), inputs[1..], room))
  }

  function Max(a: nat, b: nat): nat {
    if a < b then b else a
  }

  /** Whether a backspace erases a character while the cursor stands in the first column, where the line, which
      began in column x, has just wrapped. */
  predicate ErasesAcross(x: nat, line: seq<byte>, inputs: seq<Input>, room: nat)
    requires |line| <= room
    decreases |inputs|
  {
    && |line| < room && inputs != []
    && if !inputs[0].Pressed() then ErasesAcross(x, line, inputs[1..], room)
       else
         var c := Keymap(inputs[0].code);
         && c != NEWLINE
         && (Across(x, line, c) || ErasesAcross(x, Press(line, c), inputs[1..], room))
  }

  predicate Across(x: nat, line: seq<byte>, c: byte) {
    c == ASCII_BS && line != [] && (x + |line|) % COLUMNS == 0
  }

  /** What each input does to the line: a newline ends it, a backspace takes its last character away, another
      character is added, a break code and what others draw do nothing. */
  lemma InputMeans(line: seq<byte>, input: Input, rest: seq<Input>, room: nat)
    requires |line| < room
    ensures Edit(line, [input] + rest, room) ==
      if input.Drawn? || input.code >= 0x80 then Edit(line, rest, room)
      else if Keymap(input.code) == 10 then Editor(line, rest, Entered)
      else if Keymap(input.code) != 8 then Edit(line + [Keymap(input.code)], rest, room)
      else Edit(if line == [] then [] else line[..|line| - 1], rest, room)
  {
    assert ([input] + rest)[1..] == rest;
  }

  /** A line ends when the buffer has room for no more, and waits when there is no more input. */
  lemma EndMeans(line: seq<byte>, inputs: seq<Input>, room: nat)
    ensures |line| == room ==> Edit(line, inputs, room) == Editor(line, inputs, Full)
    ensures |line| < room ==> Edit(line, [], room) == Editor(line, [], Waiting)
  {
  }

  /** A line that stays on its row is never erased across the end of one. */
  lemma {:induction false} OneRow(x: nat, line: seq<byte>, inputs: seq<Input>, room: nat)
    requires |line| <= room && x + Extent(line, inputs, room) < COLUMNS
    ensures !ErasesAcross(x, line, inputs, room)
    decreases |inputs|
  {
    if |line| < room && inputs != [] {
      if !inputs[0].Pressed() {
        OneRow(x, line, inputs[1..], room);
      } else if Keymap(inputs[0].code) != NEWLINE {
        OneRow(x, Press(line, Keymap(inputs[0].code)), inputs[1..], room);
      }
    }
  }

  /** A key that is typed and erased again leaves no trace, unless the line was full with it. */
  lemma BackspaceUndoes(line: seq<byte>, key: byte, bs: byte, inputs: seq<Input>, room: nat)
    requires |line| < room && key < BRAKE && bs < BRAKE
    requires Keymap(key) != ASCII_BS && Keymap(key) != NEWLINE && Keymap(bs) == ASCII_BS
    ensures Edit(line, [Key(key), Key(bs)] + inputs, room) ==
      if |line| + 1 < room then Edit(line, inputs, room) else Editor(line + [Keymap(key)], [Key(bs)] + inputs, Full)
  {
    var typed := line + [Keymap(key)];
    assert ([Key(key), Key(bs)] + inputs)[1..] == [Key(bs)] + inputs;
    assert ([Key(bs)] + inputs)[1..] == inputs;
    assert typed[..|line|] == line;
  }

  /** The line never holds a newline or a backspace. */
  lemma {:induction false} LineIsPlain(line: seq<byte>, inputs: seq<Input>, room: nat)
    requires |line| <= room && ASCII_BS !in line && NEWLINE !in line
    ensures var r := Edit(line, inputs, room); ASCII_BS !in r.line && NEWLINE !in r.line
    decreases |inputs|
  {
    if |line| < room && inputs != [] {
      if !inputs[0].Pressed() {
        LineIsPlain(line, inputs[1..], room);
      } else if Keymap(inputs[0].code) != NEWLINE {
        LineIsPlain(Press(line, Keymap(inputs[0].code)), inputs[1..], room);
      }
    }
  }

  /** The scancodes among the inputs. */
  function KeysOf(inputs: seq<Input>): seq<byte> {
    if inputs == [] then []
    else (if inputs[0].Key? then [inputs[0].code] else []) + KeysOf(inputs[1..])
  }

  function Strokes(keys: seq<byte>): (r: seq<Input>)
    ensures |r| == |keys|
  {
    seq(|keys|, i requires 0 <= i < |keys| => Key(keys[i]))
  }

  lemma StrokesFirst(inputs: seq<Input>)
    requires inputs != []
    ensures var s, rest := Strokes(KeysOf(inputs)), Strokes(KeysOf(inputs[1..]));
      if inputs[0].Key? then s != [] && s[0] == inputs[0] && s[1..] == rest else s == rest
  {
  }

  /** What other tasks draw does not change the line. */
  lemma {:induction false} EditKeys(line: seq<byte>, inputs: seq<Input>, room: nat)
    requires |line| <= room
    ensures var r := Edit(line, inputs, room);
      Edit(line, Strokes(KeysOf(inputs)), room) == Editor(r.line, Strokes(KeysOf(r.rest)), r.phase)
    decreases |inputs|
  {
    if |line| < room && inputs != [] {
      var first, rest := inputs[0], inputs[1..];
      var line' := if first.Pressed() then Press(line, Keymap(first.code)) else line;
      if !(first.Pressed() && Keymap(first.code) == NEWLINE) {
        EditKeys(line', rest, room);
      }
      StrokesFirst(inputs);
    }
  }

  lemma KeysOfFirst(first: Input, rest: seq<Input>)
    ensures KeysOf([first] + rest) == (if first.Key? then [first.code] else []) + KeysOf(rest)
  {
    assert ([first] + rest)[1..] == rest;
  }

  lemma {:induction false} KeysOfConcat(a: seq<Input>, b: seq<Input>)
    ensures KeysOf(a + b) == KeysOf(a) + KeysOf(b)
  {
    if a == [] {
      assert a + b == b;
    } else {
      KeysOfFirst(a[0], a[1..] + b);
      KeysOfFirst(a[0], a[1..]);
      KeysOfConcat(a[1..], b);
      assert a + b == [a[0]] + (a[1..] + b) && a == [a[0]] + a[1..];
      Regroup(if a[0].Key? then [a[0].code] else [], KeysOf(a[1..]), KeysOf(b));
    }
  }

  lemma {:induction false} KeysOfStrokes(keys: seq<byte>)
    ensures KeysOf(Strokes(keys)) == keys
  {
    if keys != [] {
      assert Strokes(keys)[1..] == Strokes(keys[1..]);
      KeysOfStrokes(keys[1..]);
    }
  }

  // ---- the screen ----

  /** The cell for a character: attribute 7, and a signed char that is widened before it is or-ed in. */
  function Cell(c: byte): cell {
    if c < 128 then 0x700 + c as int else 0xff00 + c as int
  }

  /** The two bytes of a cell: the character in the low one, the attribute in the high one. */
  lemma CellBytes(c: byte)
    ensures Cell(c) % 256 == c as int && Cell(c) / 256 == if c < 128 then 7 else 0xff
  {
  }

  /** Where put_char_pos writes, in cells: both coordinates are passed as bytes. */
  function At(x: word, y: word): nat {
    (y % 256) * COLUMNS + x % 256
  }

  /** The terminal as a value: cells and cursor. */
  datatype View = View(screen: Cells, x: word, y: word)

  function NewRow(v: View): View {
    v.(x := 0, y := Increment(v.y))
  }

  /** put_char_pos; None if the cell lies behind video memory, where nothing is mapped. */
  function Put(v: View, x: word, c: byte): Option<View> {
    if At(x, v.y) < CELLS then Some(v.(screen := v.screen[At(x, v.y) := Cell(c)])) else None
  }

  /** What get_line does on the screen with a character that does not end the line. */
  function Echo(v: View, line: seq<byte>, c: byte): Option<View> {
    if c != ASCII_BS then
      match Put(v, v.x, c)
      case None => None
      case Some(w) => Some(if v.x < COLUMNS - 1 then w.(x := v.x + 1) else NewRow(w))
    else if line == [] then Some(v)
    else
      match Put(v, Decrement(v.x), BLANK)
      case None => None
      case Some(w) => Some(w.(x := Decrement(v.x)))
  }

  /** What an input changes on the screen before get_line takes notice of it. */
  function Pass(cells: Cells, input: Input): Cells {
    if input.Drawn? then cells[input.at := input.value] else cells
  }

  /** The terminal after the inputs that Edit reads; None if the kernel faults on the way. */
  function Display(v: View, line: seq<byte>, inputs: seq<Input>, room: nat): Option<View>
    requires |line| <= room
    decreases |inputs|
  {
    if |line| == room || inputs == [] then Some(v)
    else if !inputs[0].Pressed() then Display(v.(screen := Pass(v.screen, inputs[0])), line, inputs[1..], room)
    else
      var c := Keymap(inputs[0].code);
      if c == NEWLINE then Some(NewRow(v))
      else
        match Echo(v, line, c)
        case None => None
        case Some(w) => Display(w, Press(line, c), inputs[1..], room)
  }

  /** What each input does to the screen and the cursor. */
  lemma DisplayMeans(v: View, line: seq<byte>, input: Input, rest: seq<Input>, room: nat)
    requires |line| < room
    ensures Display(v, line, [input] + rest, room) ==
      if input.Drawn? then Display(v.(screen := v.screen[input.at := input.value]), line, rest, room)
      else if input.code >= 0x80 then Display(v, line, rest, room)
      else if Keymap(input.code) == 10 then
        Some(View(v.screen, 0, if v.y < 0xffff_ffff then v.y + 1 else 0))
      else
        match Echo(v, line, Keymap(input.code))
        case None => None
        case Some(w) => Display(w, Press(line, Keymap(input.code)), rest, room)
  {
    assert ([input] + rest)[1..] == rest;
  }

  /** What a character that does not end the line does to the screen and the cursor. */
  lemma EchoMeans(v: View, line: seq<byte>, c: byte)
    requires c != 10
    ensures var x := if c != 8 then v.x else if v.x > 0 then v.x - 1 else 0xffff_ffff;
      var p, down := v.y % 256 * 80 + x % 256, if v.y < 0xffff_ffff then v.y + 1 else 0;
      Echo(v, line, c) ==
        if c == 8 && line == [] then Some(v)
        else if p >= 0x4000 then None
        else if c == 8 then Some(View(v.screen[p := 0x0720], x, v.y))
        else
          var w := v.screen[p := if c < 128 then 0x0700 + c as int else 0xff00 + c as int];
          Some(if x < 79 then View(w, x + 1, v.y) else View(w, 0, down))
  {
  }

  /** Reading goes on where it stopped, so what holds of all streams holds after every key of a stream. */
  lemma {:induction false} EditConcat(v: View, line: seq<byte>, inputs: seq<Input>, more: seq<Input>, room: nat)
    requires |line| <= room
    ensures var r := Edit(line, inputs, room);
      Edit(line, inputs + more, room) ==
        if r.phase.Waiting? then Edit(r.line, more, room) else Editor(r.line, r.rest + more, r.phase)
    ensures var r, w := Edit(line, inputs, room), Display(v, line, inputs, room);
      Display(v, line, inputs + more, room) ==
        if w.Some? && r.phase.Waiting? then Display(w.value, r.line, more, room) else w
    ensures Extent(line, inputs, room) <= Extent(line, inputs + more, room)
    decreases |inputs|
  {
    if inputs == [] {
      assert inputs + more == more;
    } else if |line| < room {
      assert (inputs + more)[1..] == inputs[1..] + more;
      if !inputs[0].Pressed() {
        EditConcat(v.(screen := Pass(v.screen, inputs[0])), line, inputs[1..], more, room);
      } else {
        var c := Keymap(inputs[0].code);
        if c != NEWLINE {
          var w := if Echo(v, line, c).Some? then Echo(v, line, c).value else v;
          EditConcat(w, Press(line, c), inputs[1..], more, room);
        }
      }
    }
  }

  /** The screen after inputs that end no wait. */
  function PassAll(v: View, inputs: seq<Input>): View {
    if inputs == [] then v
    else
      var w := PassAll(v, inputs[..|inputs| - 1]);
      w.(screen := Pass(w.screen, inputs[|inputs| - 1]))
  }

  function Outcome(v: View, line: seq<byte>, inputs: seq<Input>, room: nat): (Editor, Option<View>)
    requires |line| <= room
  {
    (Edit(line, inputs, room), Display(v, line, inputs, room))
  }

  lemma {:induction false} SkipBreaks(v: View, line: seq<byte>, inputs: seq<Input>, from: nat, to: nat, room: nat)
    requires |line| < room && from <= to <= |inputs|
    requires forall k :: from <= k < to ==> !inputs[k].Pressed()
    ensures Outcome(v, line, inputs[from..], room) ==
      Outcome(PassAll(v, inputs[from..to]), line, inputs[to..], room)
  {
    if from < to {
      SkipBreaks(v, line, inputs, from, to - 1, room);
      assert inputs[from..to][..to - from - 1] == inputs[from..to - 1];
      assert inputs[to - 1..][1..] == inputs[to..];
    } else {
      assert inputs[from..to] == [];
    }
  }

  // ---- when the screen shows the line ----

  /** `screen` is `back` with `line` written from cell `start` on, followed by blanks up to `high`, the furthest
      the line has ever reached; nothing else differs. */
  ghost predicate Echoed(screen: Cells, back: Cells, start: nat, line: seq<byte>, high: nat) {
    |line| <= high && forall p :: 0 <= p < CELLS ==> screen[p] == Shown(back, start, line, high, p)
  }

  function Shown(back: Cells, start: nat, line: seq<byte>, high: nat, p: nat): cell
    requires p < CELLS
  {
    if start <= p < start + |line| then Cell(line[p - start])
    else if start <= p < start + high then Cell(BLANK)
    else back[p]
  }

  lemma EchoTyped(screen: Cells, back: Cells, start: nat, line: seq<byte>, high: nat, c: byte)
    requires start + |line| < CELLS && Echoed(screen, back, start, line, high)
    ensures Echoed(screen[start + |line| := Cell(c)], back, start, line + [c], Max(high, |line| + 1))
  {
  }

  lemma EchoErased(screen: Cells, back: Cells, start: nat, line: seq<byte>, high: nat)
    requires line != [] && start + |line| <= CELLS && Echoed(screen, back, start, line, high)
    ensures Echoed(screen[start + |line| - 1 := Cell(BLANK)], back, start, line[..|line| - 1], high)
  {
  }

  /** What others draw elsewhere they draw on the background. */
  lemma EchoDrawn(screen: Cells, back: Cells, start: nat, line: seq<byte>, high: nat, input: Input)
    requires Echoed(screen, back, start, line, high)
    requires input.Drawn? ==> !(start <= input.at < start + high)
    ensures Echoed(Pass(screen, input), Pass(back, input), start, line, high)
  {
  }

  /** The rows above the one that v0 is in, as far as put_char_pos does not see them. */
  function Above(v0: View): int {
    v0.y - v0.y % 256
  }

  /** The cell where reading began. */
  function Start(v0: View): nat {
    v0.y % 256 * COLUMNS + v0.x
  }

  /** The cursor stands n cells behind the place where reading began, counting cells along the rows. */
  predicate Behind(v: View, v0: View, n: nat) {
    v.x < COLUMNS && (v.y - Above(v0)) * COLUMNS + v.x == Start(v0) + n
  }

  /** The cursor stands in the row after that. */
  predicate BelowRow(v: View, v0: View, n: nat) {
    v.x == 0 && v.y - Above(v0) == (Start(v0) + n) / COLUMNS + 1
  }

  /** The line is on the screen and the cursor is where it belongs, also when a newline has ended the line. */
  ghost predicate Shows(v: View, v0: View, back: Cells, line: seq<byte>, high: nat, entered: bool) {
    && Echoed(v.screen, back, Start(v0), line, high)
    && if entered then BelowRow(v, v0, |line|) else Behind(v, v0, |line|)
  }

  /** A place in rows and columns. */
  lemma RowAndColumn(row: int, x: int, start: int, n: int)
    requires 0 <= x < COLUMNS && row * COLUMNS + x == start + n
    ensures row == (start + n) / COLUMNS && x == (start + n) % COLUMNS
  {
  }

  lemma ColumnOf(v0: View, n: nat)
    ensures (Start(v0) + n) % COLUMNS == (v0.x + n) % COLUMNS
  {
    var a, b, k: int := Start(v0) + n, v0.x + n, v0.y % 256;
    assert a == b + k * COLUMNS;
    ModShift(b, k);
  }

  lemma ModShift(b: int, k: int)
    ensures (b + k * COLUMNS) % COLUMNS == b % COLUMNS
  {
  }

  /** While the cursor is where it belongs, put_char_pos writes where the line goes. */
  lemma PlaceOfCursor(v: View, v0: View, n: nat)
    requires v0.x < COLUMNS && Behind(v, v0, n) && (n == 0 || Start(v0) + n <= CELLS)
    ensures At(v.x, v.y) == Start(v0) + n
    ensures v.x == 0 <==> (v0.x + n) % COLUMNS == 0
    ensures v.x > 0 ==> At(v.x - 1, v.y) == Start(v0) + n - 1
  {
    var row := v.y - Above(v0);
    RowAndColumn(row, v.x, Start(v0), n);
    ColumnOf(v0, n);
    assert 0 <= row < 256 by {
      if n == 0 {
        RowAndColumn(v0.y % 256, v0.x, Start(v0), 0);
      }
    }
    SameRow(v.y, v0.y, row);
  }

  lemma SameRow(y: int, y0: int, row: int)
    requires 0 <= row < 256 && y == row + (y0 - y0 % 256)
    ensures y % 256 == row
  {
  }

  function Rewritten(cells: Cells, start: nat, line: seq<byte>, c: byte): Cells
    requires if c == ASCII_BS then start + |line| <= CELLS || line == [] else start + |line| < CELLS
  {
    if c != ASCII_BS then cells[start + |line| := Cell(c)]
    else if line == [] then cells
    else cells[start + |line| - 1 := Cell(BLANK)]
  }

  /** One character, as far as the cursor goes: it moves with the line, or the kernel faults because the line
      has reached the end of video memory. */
  lemma EchoCursor(v: View, v0: View, line: seq<byte>, c: byte)
    requires v0.x < COLUMNS && Behind(v, v0, |line|) && (line == [] || Start(v0) + |line| <= CELLS)
    requires v.y + 1 < WORD && !Across(v0.x, line, c)
    ensures Echo(v, line, c).None? <==> c != ASCII_BS && Start(v0) + |line| >= CELLS
    ensures Echo(v, line, c).Some? ==>
      && Behind(Echo(v, line, c).value, v0, |Press(line, c)|)
      && (Press(line, c) == [] || Start(v0) + |Press(line, c)| <= CELLS)
      && Echo(v, line, c).value.y <= v.y + 1
      && Echo(v, line, c).value.screen == Rewritten(v.screen, Start(v0), line, c)
  {
    PlaceOfCursor(v, v0, |line|);
  }

  // ---- over whole streams ----

  /** What other tasks have drawn by the time Edit has read its inputs. */
  function Backdrop(cells: Cells, line: seq<byte>, inputs: seq<Input>, room: nat): Cells
    requires |line| <= room
    decreases |inputs|
  {
    if |line| == room || inputs == [] then cells
    else if !inputs[0].Pressed() then Backdrop(Pass(cells, inputs[0]), line, inputs[1..], room)
    else
      var c := Keymap(inputs[0].code);
      if c == NEWLINE then cells else Backdrop(cells, Press(line, c), inputs[1..], room)
  }

  /** No other task draws in these cells. */
  ghost predicate Undisturbed(inputs: seq<Input>, from: nat, to: nat) {
    forall k :: 0 <= k < |inputs| && inputs[k].Drawn? ==> !(from <= inputs[k].at < to)
  }

  lemma UndisturbedTail(inputs: seq<Input>, from: nat, to: nat)
    requires Undisturbed(inputs, from, to) && inputs != []
    ensures Undisturbed(inputs[1..], from, to)
    ensures inputs[0].Drawn? ==> !(from <= inputs[0].at < to)
  {
    forall k | 0 <= k < |inputs| - 1 && inputs[1..][k].Drawn? ensures !(from <= inputs[1..][k].at < to) {
      assert inputs[k + 1].Drawn?;
    }
  }

  /** n cells from `start` on lie in video memory. */
  predicate InMemory(start: nat, n: nat) {
    n == 0 || start + n <= CELLS
  }

  lemma EchoStep(v: View, v0: View, back: Cells, line: seq<byte>, high: nat, c: byte)
    requires v0.x < COLUMNS && Behind(v, v0, |line|) && Echoed(v.screen, back, Start(v0), line, high)
    requires InMemory(Start(v0), Max(|line|, |Press(line, c)|)) && v.y + 1 < WORD && !Across(v0.x, line, c)
    ensures var w := Echo(v, line, c);
      w.Some? && Behind(w.value, v0, |Press(line, c)|) && w.value.y <= v.y + 1
        && Echoed(w.value.screen, back, Start(v0), Press(line, c), Max(high, |Press(line, c)|))
  {
    EchoCursor(v, v0, line, c);
    if c != ASCII_BS {
      EchoTyped(v.screen, back, Start(v0), line, high, c);
    } else if line != [] {
      EchoErased(v.screen, back, Start(v0), line, high);
    }
  }

  lemma NewlineBelow(v: View, v0: View, n: nat)
    requires Behind(v, v0, n) && v.y + 1 < WORD
    ensures BelowRow(NewRow(v), v0, n)
  {
    RowAndColumn(v.y - Above(v0), v.x, Start(v0), n);
  }

  /** While nothing is erased across the end of a row and the line stays in video memory, the screen shows it,
      over as many rows as it takes. */
  lemma {:induction false} EchoFits(v: View, v0: View, back: Cells, line: seq<byte>, inputs: seq<Input>, room: nat,
                                    high: nat, end: nat)
    requires |line| <= room && v0.x < COLUMNS && v.y + |inputs| < WORD
    requires Behind(v, v0, |line|) && Echoed(v.screen, back, Start(v0), line, high) && high <= end
    requires Extent(line, inputs, room) <= end && InMemory(Start(v0), end)
    requires Undisturbed(inputs, Start(v0), Start(v0) + end) && !ErasesAcross(v0.x, line, inputs, room)
    ensures var r, w := Edit(line, inputs, room), Display(v, line, inputs, room);
      && w.Some?
      && Shows(w.value, v0, Backdrop(back, line, inputs, room), r.line, Max(high, Extent(line, inputs, room)),
               r.phase.Entered?)
    decreases |inputs|
  {
    if |line| < room && inputs != [] {
      UndisturbedTail(inputs, Start(v0), Start(v0) + end);
      if !inputs[0].Pressed() {
        var w := v.(screen := Pass(v.screen, inputs[0]));
        EchoDrawn(v.screen, back, Start(v0), line, high, inputs[0]);
        EchoFits(w, v0, Pass(back, inputs[0]), line, inputs[1..], room, high, end);
      } else {
        var c := Keymap(inputs[0].code);
        if c == NEWLINE {
          NewlineBelow(v, v0, |line|);
        } else {
          EchoStep(v, v0, back, line, high, c);
          EchoFits(Echo(v, line, c).value, v0, back, Press(line, c), inputs[1..], room, Max(high, |Press(line, c)|), end);
        }
      }
    }
  }

  /** If the line outgrows video memory instead, the kernel faults. */
  lemma {:induction false} EchoFaults(v: View, v0: View, line: seq<byte>, inputs: seq<Input>, room: nat)
    requires |line| <= room && v0.x < COLUMNS && v.y + |inputs| < WORD
    requires Behind(v, v0, |line|) && InMemory(Start(v0), |line|)
    requires !InMemory(Start(v0), Extent(line, inputs, room)) && !ErasesAcross(v0.x, line, inputs, room)
    ensures Display(v, line, inputs, room).None?
    decreases |inputs|
  {
    if !inputs[0].Pressed() {
      EchoFaults(v.(screen := Pass(v.screen, inputs[0])), v0, line, inputs[1..], room);
    } else {
      var c := Keymap(inputs[0].code);
      EchoCursor(v, v0, line, c);
      if Echo(v, line, c).Some? {
        EchoFaults(Echo(v, line, c).value, v0, Press(line, c), inputs[1..], room);
      }
    }
  }

  /** The cursor is lost: a row or more beyond the line, or, after it has been taken back from the first column,
      with a column number that has wrapped below zero and still has `left` steps before it gets small. */
  predicate Lost(v: View, v0: View, n: nat, left: nat) {
    var cells := (v.y - Above(v0)) * COLUMNS - Start(v0) - n;
    if v.x < COLUMNS then cells + v.x >= COLUMNS else cells + v.x - WORD >= 0 && v.x >= COLUMNS + left
  }

  lemma LostStep(v: View, v0: View, line: seq<byte>, c: byte, left: nat)
    requires v.y + 1 < WORD && left + COLUMNS + 1 < WORD && Lost(v, v0, |line|, left + 1) && Echo(v, line, c).Some?
    ensures Lost(Echo(v, line, c).value, v0, |Press(line, c)|, left) && Echo(v, line, c).value.y <= v.y + 1
  {
  }

  lemma LostStart(v: View, v0: View, line: seq<byte>, c: byte, left: nat)
    requires v0.x < COLUMNS && Behind(v, v0, |line|) && left + COLUMNS + 1 < WORD
    requires Across(v0.x, line, c) && Echo(v, line, c).Some?
    ensures Lost(Echo(v, line, c).value, v0, |Press(line, c)|, left) && Echo(v, line, c).value.y == v.y
  {
    RowAndColumn(v.y - Above(v0), v.x, Start(v0), |line|);
    ColumnOf(v0, |line|);
  }

  /** The cursor is neither behind the line nor, after a newline, in the row below. */
  predicate Misplaced(v: View, v0: View, n: nat, entered: bool) {
    if entered then !BelowRow(v, v0, n) else !Behind(v, v0, n)
  }

  lemma LostIsMisplaced(v: View, v0: View, n: nat, left: nat)
    requires Lost(v, v0, n, left) && v.y + 1 < WORD
    ensures !Behind(v, v0, n) && !BelowRow(NewRow(v), v0, n)
  {
    var end, row := Start(v0) + n, v.y - Above(v0);
    assert row * COLUMNS > end;
    assert end / COLUMNS * COLUMNS <= end;
  }

  /** It never finds back, whatever is typed and erased. */
  lemma {:induction false} StaysLost(v: View, v0: View, line: seq<byte>, inputs: seq<Input>, room: nat)
    requires |line| <= room && v.y + |inputs| + 1 < WORD && |inputs| + COLUMNS + 1 < WORD
    requires Lost(v, v0, |line|, |inputs|)
    ensures var r, w := Edit(line, inputs, room), Display(v, line, inputs, room);
      w.Some? ==> Misplaced(w.value, v0, |r.line|, r.phase.Entered?)
    decreases |inputs|
  {
    LostIsMisplaced(v, v0, |line|, |inputs|);
    if |line| < room && inputs != [] {
      if !inputs[0].Pressed() {
        StaysLost(v.(screen := Pass(v.screen, inputs[0])), v0, line, inputs[1..], room);
      } else {
        var c := Keymap(inputs[0].code);
        if c != NEWLINE && Echo(v, line, c).Some? {
          LostStep(v, v0, line, c, |inputs| - 1);
          StaysLost(Echo(v, line, c).value, v0, Press(line, c), inputs[1..], room);
        }
      }
    }
  }

  /** Once a character has been erased across the end of a row, the kernel faults or the cursor is lost for good. */
  lemma {:induction false} EchoLost(v: View, v0: View, line: seq<byte>, inputs: seq<Input>, room: nat)
    requires |line| <= room && v0.x < COLUMNS && v.y + |inputs| + 1 < WORD && |inputs| + COLUMNS + 1 < WORD
    requires Behind(v, v0, |line|) && InMemory(Start(v0), |line|) && ErasesAcross(v0.x, line, inputs, room)
    ensures var r, w := Edit(line, inputs, room), Display(v, line, inputs, room);
      w.Some? ==> Misplaced(w.value, v0, |r.line|, r.phase.Entered?)
    decreases |inputs|
  {
    if !inputs[0].Pressed() {
      EchoLost(v.(screen := Pass(v.screen, inputs[0])), v0, line, inputs[1..], room);
    } else {
      var c := Keymap(inputs[0].code);
      if Across(v0.x, line, c) {
        if Echo(v, line, c).Some? {
          LostStart(v, v0, line, c, |inputs| - 1);
          StaysLost(Echo(v, line, c).value, v0, Press(line, c), inputs[1..], room);
        }
      } else {
        EchoCursor(v, v0, line, c);
        if Echo(v, line, c).Some? {
          EchoLost(Echo(v, line, c).value, v0, Press(line, c), inputs[1..], room);
        }
      }
    }
  }

  /** The kernel does not fault, every cell is what the line and the other tasks make it, and the cursor is
      behind the line or, after a newline, in the row below. */
  ghost predicate ShowsLine(v0: View, inputs: seq<Input>, room: nat) {
    var r, w := Edit([], inputs, room), Display(v0, [], inputs, room);
    && w.Some?
    && exists high: nat :: Shows(w.value, v0, Backdrop(v0.screen, [], inputs, room), r.line, high, r.phase.Entered?)
  }

  /**
   The exact condition for the echo, over all inputs and all sizes of the buffer, where no other task draws in
   the cells of the line: the screen shows the line, over as many rows as it takes, if and only if no character
   is erased across the end of a row and the line stays in video memory.
   */
  lemma EchoExact(v0: View, inputs: seq<Input>, room: nat)
    requires v0.x < COLUMNS && v0.y + |inputs| + 1 < WORD && |inputs| + COLUMNS + 1 < WORD
    requires Undisturbed(inputs, Start(v0), Start(v0) + Extent([], inputs, room))
    ensures ShowsLine(v0, inputs, room) <==>
      !ErasesAcross(v0.x, [], inputs, room) && InMemory(Start(v0), Extent([], inputs, room))
  {
    if ErasesAcross(v0.x, [], inputs, room) {
      EchoLost(v0, v0, [], inputs, room);
    } else if InMemory(Start(v0), Extent([], inputs, room)) {
      EchoFits(v0, v0, v0.screen, [], inputs, room, 0, Extent([], inputs, room));
    } else {
      EchoFaults(v0, v0, [], inputs, room);
    }
  }

  /**
   What that looks like: each character is in its cell, with blanks as far as the line has ever reached, and every
   other cell is as it was; the cursor is behind the line, counting along the rows, or in the row below its end
   after a newline.
   */
  lemma ScreenText(v0: View, inputs: seq<Input>, room: nat)
    requires v0.x < 80 && v0.y < 256 && |inputs| < 0xffff_0000 && forall k :: 0 <= k < |inputs| ==> inputs[k].Key?
    requires !ErasesAcross(v0.x, [], inputs, room)
    requires Extent([], inputs, room) == 0 || v0.y * 80 + v0.x + Extent([], inputs, room) <= 0x4000
    ensures var r, w := Edit([], inputs, room), Display(v0, [], inputs, room);
      var start, n, reach := v0.y * 80 + v0.x, |r.line|, Extent([], inputs, room);
      && w.Some? && n <= reach
      && (forall p :: start <= p < start + n ==> w.value.screen[p] % 256 == r.line[p - start] as int)
      && (forall p :: start + n <= p < start + reach ==> w.value.screen[p] == 0x0720)
      && (forall p :: 0 <= p < 0x4000 && !(start <= p < start + reach) ==> w.value.screen[p] == v0.screen[p])
      && (r.phase != Entered ==> w.value.x < 80 && w.value.y * 80 + w.value.x == start + n)
      && (r.phase == Entered ==> w.value.x == 0 && w.value.y == (start + n) / 80 + 1)
  {
    var reach, line := Extent([], inputs, room), Edit([], inputs, room).line;
    assert Undisturbed(inputs, Start(v0), Start(v0) + reach);
    FirstRows(v0);
    ExtentReaches([], inputs, room);
    EchoFits(v0, v0, v0.screen, [], inputs, room, 0, reach);
    NothingDrawn(v0.screen, [], inputs, room);
    ShowsText(Display(v0, [], inputs, room).value, v0, line, reach, Edit([], inputs, room).phase.Entered?);
  }

  lemma FirstRows(v0: View)
    requires v0.y < 256
    ensures Start(v0) == v0.y * 80 + v0.x && Above(v0) == 0
  {
  }

  lemma ShowsText(w: View, v0: View, line: seq<byte>, high: nat, entered: bool)
    requires v0.y < 256 && Shows(w, v0, v0.screen, line, high, entered)
    requires high == 0 || v0.y * 80 + v0.x + high <= 0x4000
    ensures var start, n := v0.y * 80 + v0.x, |line|;
      && n <= high
      && (forall p :: start <= p < start + n ==> w.screen[p] % 256 == line[p - start] as int)
      && (forall p :: start + n <= p < start + high ==> w.screen[p] == 0x0720)
      && (forall p :: 0 <= p < 0x4000 && !(start <= p < start + high) ==> w.screen[p] == v0.screen[p])
      && (!entered ==> w.x < 80 && w.y * 80 + w.x == start + n)
      && (entered ==> w.x == 0 && w.y == (start + n) / 80 + 1)
  {
    FirstRows(v0);
    var start := v0.y * 80 + v0.x;
    forall p | start <= p < start + |line| ensures w.screen[p] % 256 == line[p - start] as int {
      CellBytes(line[p - start]);
    }
  }

  lemma {:induction false} NothingDrawn(cells: Cells, line: seq<byte>, inputs: seq<Input>, room: nat)
    requires |line| <= room && forall k :: 0 <= k < |inputs| ==> inputs[k].Key?
    ensures Backdrop(cells, line, inputs, room) == cells
    decreases |inputs|
  {
    if |line| < room && inputs != [] {
      var line' := if inputs[0].Pressed() then Press(line, Keymap(inputs[0].code)) else line;
      if !(inputs[0].Pressed() && Keymap(inputs[0].code) == NEWLINE) {
        NothingDrawn(cells, line', inputs[1..], room);
      }
    }
  }

  /** It is not the cursor alone: if, after whatever has been typed, the character that has filled a row is
      erased again, the line is what it was, but the character stays on the screen, unless the kernel faults. */
  lemma WrapLosesEcho(v0: View, inputs: seq<Input>, room: nat, v: View, line: seq<byte>, back: Cells,
                      key: byte, bs: byte, high: nat)
    requires v0.x < COLUMNS && v0.y + |inputs| + 3 < WORD && !ErasesAcross(v0.x, [], inputs, room)
    requires Undisturbed(inputs, Start(v0), Start(v0) + Extent([], inputs, room))
    requires Outcome(v0, [], inputs, room) == (Editor(line, [], Waiting), Some(v))
    requires back == Backdrop(v0.screen, [], inputs, room)
    requires |line| + 1 < room && (v0.x + |line|) % COLUMNS == COLUMNS - 1
    requires key < BRAKE && bs < BRAKE && Keymap(bs) == ASCII_BS && Keymap(key) !in {NEWLINE, ASCII_BS, BLANK}
    requires Start(v0) + |line| < CELLS ==> Cell(Keymap(key)) != back[Start(v0) + |line|]
    ensures var (r, w) := Outcome(v0, [], inputs + [Key(key), Key(bs)], room);
      r == Editor(line, [], Waiting) && (w.Some? ==> !Echoed(w.value.screen, back, Start(v0), line, high))
  {
    WhileWaiting(v0, inputs, room, v, line);
    TwoMore(v0, inputs, room, v, line, key, bs);
    CharacterStays(v, v0, back, line, Keymap(key), high);
  }

  /** EchoFits from the start, as far as the cursor goes. */
  lemma WhileWaiting(v0: View, inputs: seq<Input>, room: nat, v: View, line: seq<byte>)
    requires v0.x < COLUMNS && v0.y + |inputs| + 3 < WORD && !ErasesAcross(v0.x, [], inputs, room)
    requires Undisturbed(inputs, Start(v0), Start(v0) + Extent([], inputs, room))
    requires Outcome(v0, [], inputs, room) == (Editor(line, [], Waiting), Some(v))
    ensures Behind(v, v0, |line|) && InMemory(Start(v0), |line|) && v.y <= v0.y + |inputs|
  {
    ExtentReaches([], inputs, room);
    RowsBound(v0, [], inputs, room);
    if InMemory(Start(v0), Extent([], inputs, room)) {
      EchoFits(v0, v0, v0.screen, [], inputs, room, 0, Extent([], inputs, room));
    } else {
      EchoFaults(v0, v0, [], inputs, room);
    }
  }

  lemma TwoMore(v0: View, inputs: seq<Input>, room: nat, v: View, line: seq<byte>, key: byte, bs: byte)
    requires key < BRAKE && bs < BRAKE && Keymap(bs) == ASCII_BS && Keymap(key) !in {NEWLINE, ASCII_BS}
    requires |line| + 1 < room && Outcome(v0, [], inputs, room) == (Editor(line, [], Waiting), Some(v))
    ensures Outcome(v0, [], inputs + [Key(key), Key(bs)], room) ==
      (Editor(line, [], Waiting), ThereAndBack(v, line, Keymap(key)))
  {
    EditConcat(v0, [], inputs, [Key(key), Key(bs)], room);
    TwoKeys(v, line, key, bs, room);
  }

  lemma {:induction false} ExtentReaches(line: seq<byte>, inputs: seq<Input>, room: nat)
    requires |line| <= room
    ensures |Edit(line, inputs, room).line| <= Extent(line, inputs, room)
    decreases |inputs|
  {
    if |line| < room && inputs != [] {
      if !inputs[0].Pressed() {
        ExtentReaches(line, inputs[1..], room);
      } else if Keymap(inputs[0].code) != NEWLINE {
        ExtentReaches(Press(line, Keymap(inputs[0].code)), inputs[1..], room);
      }
    }
  }

  lemma {:induction false} RowsBound(v: View, line: seq<byte>, inputs: seq<Input>, room: nat)
    requires |line| <= room && v.y + |inputs| < WORD
    ensures var w := Display(v, line, inputs, room); w.Some? ==> w.value.y <= v.y + |inputs|
    decreases |inputs|
  {
    if |line| < room && inputs != [] {
      if !inputs[0].Pressed() {
        RowsBound(v.(screen := Pass(v.screen, inputs[0])), line, inputs[1..], room);
      } else {
        var c := Keymap(inputs[0].code);
        if c != NEWLINE && Echo(v, line, c).Some? {
          RowsBound(Echo(v, line, c).value, Press(line, c), inputs[1..], room);
        }
      }
    }
  }

  /** The display after a character and a backspace. */
  function ThereAndBack(v: View, line: seq<byte>, c: byte): Option<View> {
    match Echo(v, line, c)
    case None => None
    case Some(w) => Echo(w, line + [c], ASCII_BS)
  }

  lemma CharacterStays(v: View, v0: View, back: Cells, line: seq<byte>, c: byte, high: nat)
    requires v0.x < COLUMNS && Behind(v, v0, |line|) && InMemory(Start(v0), |line|) && v.y + 1 < WORD
    requires (v0.x + |line|) % COLUMNS == COLUMNS - 1 && c != ASCII_BS && c != BLANK
    requires Start(v0) + |line| < CELLS ==> Cell(c) != back[Start(v0) + |line|]
    ensures var w := ThereAndBack(v, line, c); w.Some? ==> !Echoed(w.value.screen, back, Start(v0), line, high)
  {
    CharacterCell(v, v0, line, c);
    if ThereAndBack(v, line, c).Some? {
      assert Shown(back, Start(v0), line, high, Start(v0) + |line|) != Cell(c);
    }
  }

  lemma CharacterCell(v: View, v0: View, line: seq<byte>, c: byte)
    requires v0.x < COLUMNS && Behind(v, v0, |line|) && InMemory(Start(v0), |line|) && v.y + 1 < WORD
    requires (v0.x + |line|) % COLUMNS == COLUMNS - 1 && c != ASCII_BS
    ensures var w, p := ThereAndBack(v, line, c), Start(v0) + |line|;
      w.Some? ==> p < CELLS && w.value.screen[p] == Cell(c)
  {
    RowAndColumn(v.y - Above(v0), v.x, Start(v0), |line|);
    ColumnOf(v0, |line|);
    EchoCursor(v, v0, line, c);
    if ThereAndBack(v, line, c).Some? {
      assert At(WORD - 1, v.y + 1) != Start(v0) + |line|;
    }
  }

  lemma TwoKeys(v: View, line: seq<byte>, key: byte, bs: byte, room: nat)
    requires |line| + 1 < room && key < BRAKE && bs < BRAKE
    requires Keymap(bs) == ASCII_BS && Keymap(key) !in {NEWLINE, ASCII_BS}
    ensures Edit(line, [Key(key), Key(bs)], room) == Editor(line, [], Waiting)
    ensures Display(v, line, [Key(key), Key(bs)], room) == ThereAndBack(v, line, Keymap(key))
  {
    var c, inputs := Keymap(key), [Key(key), Key(bs)];
    var typed, one := line + [c], [Key(bs)];
    assert inputs[0] == Key(key) && inputs[1..] == one && one[0] == Key(bs) && one[1..] == [];
    assert Press(typed, ASCII_BS) == line;
    assert Edit(line, inputs, room) == Edit(typed, one, room);
    assert Edit(typed, one, room) == Edit(line, [], room);
    match Echo(v, line, c) {
      case None =>
      case Some(w) =>
        assert Display(v, line, inputs, room) == Display(w, typed, one, room);
        match Echo(w, typed, ASCII_BS) {
          case None =>
          case Some(u) => assert Display(w, typed, one, room) == Display(u, line, [], room);
        }
    }
  }

  // ---- the conditions, in terms of what has been read before ----

  /** Erasing across the end of a row: a backspace that comes when the line ends where its row does. */
  lemma {:induction false} AcrossExactly(x: nat, line: seq<byte>, inputs: seq<Input>, room: nat)
    requires |line| <= room
    ensures ErasesAcross(x, line, inputs, room) <==> exists k :: 0 <= k < |inputs| && AcrossAt(x, line, inputs, room, k)
    decreases |inputs|
  {
    if |line| < room && inputs != [] {
      AcrossFirst(x, line, inputs, room);
      if !Ends(inputs[0]) {
        AcrossExactly(x, After(line, inputs[0]), inputs[1..], room);
      }
      forall k | 0 < k < |inputs|
        ensures AcrossAt(x, line, inputs, room, k) <==>
          !Ends(inputs[0]) && AcrossAt(x, After(line, inputs[0]), inputs[1..], room, k - 1)
      {
        AcrossLater(x, line, inputs, room, k);
      }
      if !Ends(inputs[0]) && ErasesAcross(x, After(line, inputs[0]), inputs[1..], room) {
        var k :| 0 <= k < |inputs[1..]| && AcrossAt(x, After(line, inputs[0]), inputs[1..], room, k);
        AcrossLater(x, line, inputs, room, k + 1);
      }
    }
  }

  /** The line after an input, unless it ends the line. */
  function After(line: seq<byte>, input: Input): seq<byte> {
    if input.Pressed() then Press(line, Keymap(input.code)) else line
  }

  predicate Ends(input: Input) {
    input.Pressed() && Keymap(input.code) == NEWLINE
  }

  lemma AcrossFirst(x: nat, line: seq<byte>, inputs: seq<Input>, room: nat)
    requires |line| < room && inputs != []
    ensures AcrossAt(x, line, inputs, room, 0) <==> inputs[0].Pressed() && Across(x, line, Keymap(inputs[0].code))
    ensures ErasesAcross(x, line, inputs, room) <==>
      || AcrossAt(x, line, inputs, room, 0)
      || (!Ends(inputs[0]) && ErasesAcross(x, After(line, inputs[0]), inputs[1..], room))
  {
    assert inputs[..0] == [];
  }

  lemma AcrossLater(x: nat, line: seq<byte>, inputs: seq<Input>, room: nat, k: nat)
    requires |line| < room && 0 < k < |inputs|
    ensures AcrossAt(x, line, inputs, room, k) <==>
      !Ends(inputs[0]) && AcrossAt(x, After(line, inputs[0]), inputs[1..], room, k - 1)
  {
    EditTail(line, inputs, room, k);
  }

  /** Input k is a backspace, and it meets a line that began in column x and ends where its row does. */
  predicate AcrossAt(x: nat, line: seq<byte>, inputs: seq<Input>, room: nat, k: nat)
    requires |line| <= room && k < |inputs|
  {
    var r := Edit(line, inputs[..k], room);
    && r.phase.Waiting? && r.line != [] && (x + |r.line|) % 80 == 0
    && inputs[k].Key? && inputs[k].code < 0x80 && Keymap(inputs[k].code) == 8
  }

  lemma EditTail(line: seq<byte>, inputs: seq<Input>, room: nat, k: nat)
    requires |line| < room && 0 < k <= |inputs|
    ensures Edit(line, inputs[..k], room) ==
      if !inputs[0].Pressed() then Edit(line, inputs[1..][..k - 1], room)
      else if Keymap(inputs[0].code) == NEWLINE then Editor(line, inputs[1..][..k - 1], Entered)
      else Edit(Press(line, Keymap(inputs[0].code)), inputs[1..][..k - 1], room)
  {
    assert inputs[..k][1..] == inputs[1..][..k - 1];
  }

  /** The extent is the length of the line after some of the inputs, and no part of them gives a longer one. */
  lemma {:induction false} ExtentExactly(line: seq<byte>, inputs: seq<Input>, room: nat) returns (k: nat)
    requires |line| <= room
    ensures k <= |inputs| && |Edit(line, inputs[..k], room).line| == Extent(line, inputs, room)
    ensures forall j :: 0 <= j <= |inputs| ==> |Edit(line, inputs[..j], room).line| <= Extent(line, inputs, room)
    decreases |inputs|
  {
    k := 0;
    assert inputs[..0] == [];
    if |line| < room && inputs != [] {
      var first, rest := inputs[0], inputs[1..];
      var line' := if first.Pressed() then Press(line, Keymap(first.code)) else line;
      if !(first.Pressed() && Keymap(first.code) == NEWLINE) {
        var k' := ExtentExactly(line', rest, room);
        if Extent(line, inputs, room) > |line| {
          k := k' + 1;
          EditTail(line, inputs, room, k);
        }
      }
      forall j | 0 <= j <= |inputs| ensures |Edit(line, inputs[..j], room).line| <= Extent(line, inputs, room) {
        if j > 0 {
          EditTail(line, inputs, room, j);
        }
      }
    }
  }

  /** Otherwise the kernel faults, or the cursor is not where the line ends. */
  lemma ScreenLost(v0: View, inputs: seq<Input>, room: nat)
    requires v0.x < 80 && v0.y < 256 && |inputs| < 0xffff_0000
    ensures var r, w := Edit([], inputs, room), Display(v0, [], inputs, room);
      var end := v0.y * 80 + v0.x + |r.line|;
      ErasesAcross(v0.x, [], inputs, room) && w.Some? ==>
        if r.phase == Entered then !(w.value.x == 0 && w.value.y == end / 80 + 1)
        else !(w.value.x < 80 && w.value.y * 80 + w.value.x == end)
    ensures var reach := Extent([], inputs, room);
      !ErasesAcross(v0.x, [], inputs, room) && reach > 0 && v0.y * 80 + v0.x + reach > 0x4000 ==>
        Display(v0, [], inputs, room).None?
  {
    FirstRows(v0);
    if ErasesAcross(v0.x, [], inputs, room) {
      EchoLost(v0, v0, [], inputs, room);
    } else if !InMemory(Start(v0), Extent([], inputs, room)) {
      EchoFaults(v0, v0, [], inputs, room);
    }
  }

  // ---- the loop ----

  /** The loop of get_line on its way: from v0 and an empty line it has come to (v, line, rest), where a newline
      has ended it, it waits for a key, or it goes on. */
  ghost predicate Reached(v0: View, inputs: seq<Input>, room: nat, v: View, line: seq<byte>, rest: seq<Input>,
                          entered: bool, blocked: bool)
    requires |line| <= room
  {
    Outcome(v0, [], inputs, room) ==
      if entered then (Editor(line, rest, Entered), Some(v))
      else if blocked then (Editor(line, rest, Waiting), Some(v))
      else Outcome(v, line, rest, room)
  }

  /** The wait for a key: the inputs from `used` to `next` do not end it, nor does the end of the inputs. */
  lemma ReachedByWaiting(v0: View, inputs: seq<Input>, used: nat, next: nat, room: nat, v: View, line: seq<byte>,
                         w: View, blocked: bool)
    requires used <= next <= |inputs| && |line| < room && (blocked ==> next == |inputs|)
    requires Reached(v0, inputs, room, v, line, inputs[used..], false, false)
    requires forall k :: used <= k < next ==> !inputs[k].Pressed()
    requires w == PassAll(v, inputs[used..next])
    ensures Reached(v0, inputs, room, w, line, inputs[next..], false, blocked)
  {
    SkipBreaks(v, line, inputs, used, next, room);
    if blocked {
      assert inputs[|inputs|..] == [];
    }
  }

  /** A make code, just before `next`. */
  lemma ReachedByKey(v0: View, inputs: seq<Input>, next: nat, room: nat, v: View, line: seq<byte>,
                     w: Option<View>, line': seq<byte>)
    requires 0 < next <= |inputs| && |line| < room && |line'| <= room && inputs[next - 1].Pressed()
    requires Reached(v0, inputs, room, v, line, inputs[next - 1..], false, false)
    requires var c := Keymap(inputs[next - 1].code);
      if c == NEWLINE then w == Some(NewRow(v)) && line' == line
      else w == Echo(v, line, c) && (w.Some? ==> line' == Press(line, c))
    ensures w.None? ==> Display(v0, [], inputs, room).None?
    ensures w.Some? ==>
      Reached(v0, inputs, room, w.value, line', inputs[next..], Keymap(inputs[next - 1].code) == NEWLINE, false)
  {
    assert inputs[next - 1..][1..] == inputs[next..];
  }

  lemma ReachedEnd(v0: View, inputs: seq<Input>, room: nat, v: View, line: seq<byte>, rest: seq<Input>,
                   entered: bool, blocked: bool)
    requires |line| <= room && Reached(v0, inputs, room, v, line, rest, entered, blocked)
    requires !(entered && blocked) && (entered || blocked || |line| == room)
    ensures var r := Edit([], inputs, room); r.line == line && r.rest == rest && (r.phase.Waiting? <==> blocked)
    ensures Display(v0, [], inputs, room) == Some(v)
  {
  }

  /** EchoExact, where it applies. */
  ghost predicate EchoAsStated(v0: View, inputs: seq<Input>, room: nat) {
    v0.x < COLUMNS && v0.y + |inputs| + 1 < WORD && |inputs| + COLUMNS + 1 < WORD &&
    Undisturbed(inputs, Start(v0), Start(v0) + Extent([], inputs, room)) ==>
      (ShowsLine(v0, inputs, room) <==>
         !ErasesAcross(v0.x, [], inputs, room) && InMemory(Start(v0), Extent([], inputs, room)))
  }

  lemma EchoIsStated(v0: View, inputs: seq<Input>, room: nat)
    ensures EchoAsStated(v0, inputs, room)
  {
    if v0.x < COLUMNS && v0.y + |inputs| + 1 < WORD && |inputs| + COLUMNS + 1 < WORD
       && Undisturbed(inputs, Start(v0), Start(v0) + Extent([], inputs, room)) {
      EchoExact(v0, inputs, room);
    }
  }

  class Terminal {
    const vram: array<cell>
    var x: word
    var y: word

    ghost predicate Valid() {
      vram.Length == CELLS
    }

    ghost function Now(): View
      requires Valid()
      reads this, vram
    {
      View(vram[..], x, y)
    }

    /** False is a page fault: the cell lies behind video memory. */
    method PutCharPos(c: byte, x: word, y: word) returns (ok: bool)
      requires Valid()
      modifies vram
      ensures ok <==> At(x, y) < CELLS
      ensures vram[..] == if ok then old(vram[..])[At(x, y) := Cell(c)] else old(vram[..])
      ensures var p := (y % 256) * 80 + x % 256;
        && ok == (p < 0x4000)
        && (ok ==> vram[p] % 256 == c as int && vram[p] / 256 == if c < 128 then 7 else 0xff)
        && (forall q :: 0 <= q < 0x4000 && q != p ==> vram[q] == old(vram[q]))
    {
      CellBytes(c);
      ok := At(x, y) < CELLS;
      if ok {
        vram[At(x, y)] := Cell(c);
      }
    }

    method PutChar(c: byte) returns (ok: bool)
      requires Valid()
      modifies this, vram
      ensures ok <==> c == RETURN || c == NEWLINE || At(old(x), old(y)) < CELLS
      ensures !ok ==> Now() == old(Now())
      ensures ok ==>
        if c == RETURN then Now() == old(Now()).(x := 0)
        else if c == NEWLINE then Now() == old(Now()).(x := 0, y := Increment(old(y)))
        else
          && vram[..] == old(vram[..])[At(old(x), old(y)) := Cell(c)]
          && if old(x) < COLUMNS - 1 then x == old(x) + 1 && y == old(y) else x == 0 && y == Increment(old(y))
      ensures var p := old(y) % 256 * 80 + old(x) % 256;
        && ok == (c == 13 || c == 10 || p < 0x4000)
        && (ok && c != 13 && c != 10 ==> vram[p] % 256 == c as int && vram[p] / 256 == if c < 128 then 7 else 0xff)
        && (forall q :: 0 <= q < 0x4000 && (q != p || c == 13 || c == 10) ==> vram[q] == old(vram[q]))
      ensures ok && c == 13 ==> x == 0 && y == old(y)
      ensures ok && c == 10 ==> x == 0 && y == if old(y) < 0xffff_ffff then old(y) + 1 else 0
      ensures ok && c != 13 && c != 10 ==>
        && x == (if old(x) < 79 then old(x) + 1 else 0)
        && y == if old(x) < 79 then old(y) else if old(y) < 0xffff_ffff then old(y) + 1 else 0
    {
      ok := true;
      if c == RETURN {
        x := 0;
      } else if c == NEWLINE {
        y := Increment(y);
        x := 0;
      } else {
        ok := PutCharPos(c, x, y);
        if !ok {
          return;
        }
        if x < COLUMNS - 1 {
          x := x + 1;
        } else {
          x := 0;
          y := Increment(y);
        }
      }
    }

    /** The loop of get_keycode_pressed and the table lookup of get_char, on the inputs still to come: skip the
        break codes, while other tasks may draw. Without a make code the caller blocks. */
    method GetChar(inputs: seq<Input>, from: nat) returns (c: byte, next: nat, blocked: bool)
      requires Valid() && from <= |inputs|
      modifies vram
      ensures from <= next <= |inputs| && (blocked ==> next == |inputs|)
      ensures !blocked ==> from < next && inputs[next - 1].Pressed() && c == Keymap(inputs[next - 1].code)
      ensures var waited := if blocked then next else next - 1;
        && (forall k :: from <= k < waited ==> !inputs[k].Pressed())
        && Now() == PassAll(old(Now()), inputs[from..waited])
    {
      next, c := from, 0;
      while next < |inputs| && !inputs[next].Pressed()
        invariant from <= next <= |inputs|
        invariant forall k :: from <= k < next ==> !inputs[k].Pressed()
        invariant Now() == PassAll(old(Now()), inputs[from..next])
      {
        assert inputs[from..next + 1][..next - from] == inputs[from..next];
        if inputs[next].Drawn? {
          vram[inputs[next].at] := inputs[next].value;
        }
        next := next + 1;
      }
      blocked := next == |inputs|;
      if !blocked {
        c := Keymap(inputs[next].code);
        next := next + 1;
      }
    }

    /** The body of get_line's loop once it has a character: the buffer, the echo and the new length. */
    method Take(c: byte, buf: array<byte>, i: nat) returns (j: nat, entered: bool, ok: bool)
      requires Valid() && i < buf.Length && c != RETURN
      modifies this, vram, buf
      ensures j <= i + 1 && j <= buf.Length && (entered <==> c == NEWLINE)
      ensures ok <==> entered || Echo(old(Now()), old(buf[..i]), c).Some?
      ensures ok ==> buf[..j] == if entered then old(buf[..i]) else Press(old(buf[..i]), c)
      ensures ok ==> Now() == if entered then NewRow(old(Now())) else Echo(old(Now()), old(buf[..i]), c).value
      ensures forall k :: 0 <= k < buf.Length && k != i ==> buf[k] == old(buf[k])
      ensures c == 10 ==> ok && j == i && x == 0 && vram[..] == old(vram[..])
      ensures c == 8 && i == 0 ==> ok && j == 0 && x == old(x) && y == old(y) && vram[..] == old(vram[..])
      ensures c == 8 && i > 0 && ok ==>
        && j == i - 1 && x == (if old(x) > 0 then old(x) - 1 else 0xffff_ffff) && y == old(y)
        && vram[..] == old(vram[..])[old(y) % 256 * 80 + x % 256 := 0x0720]
      ensures c != 10 && c != 8 && ok ==>
        && j == i + 1 && buf[i] == c
        && var p := old(y) % 256 * 80 + old(x) % 256;
          p < 0x4000 && vram[p] % 256 == c as int && forall q :: 0 <= q < 0x4000 && q != p ==> vram[q] == old(vram[q])
    {
      j, entered, ok := i, false, true;
      buf[i] := c;
      if c == ASCII_BS {
        if i > 0 {
          x := Decrement(x);
          ok := PutCharPos(BLANK, x, y);
          j := i - 1;
        }
      } else {
        ok := PutChar(c);
        if c == NEWLINE {
          ok := PutChar(RETURN);
          entered := true;
        } else {
          j := i + 1;
        }
      }
    }

    /** One round of get_line's loop: a character, if there is one, and what becomes of it. */
    method Round(ghost v0: View, inputs: seq<Input>, used: nat, buf: array<byte>, i: nat, room: nat)
      returns (next: nat, j: nat, entered: bool, blocked: bool, ok: bool)
      requires Valid() && i < room < buf.Length && used <= |inputs|
      requires Reached(v0, inputs, room, Now(), buf[..i], inputs[used..], false, false)
      modifies this, vram, buf
      ensures used <= next <= |inputs| && j <= room && (!blocked ==> used < next)
      ensures blocked ==> !entered && ok && j < room
      ensures !ok ==> Display(v0, [], inputs, room).None?
      ensures ok ==> Reached(v0, inputs, room, Now(), buf[..j], inputs[next..], entered, blocked)
      ensures forall k :: room < k < buf.Length ==> buf[k] == old(buf[k])
    {
      ghost var line, v := buf[..i], Now();
      var c;
      c, next, blocked := GetChar(inputs, used);
      ghost var w := Now();
      assert buf[..i] == line;
      ReachedByWaiting(v0, inputs, used, if blocked then next else next - 1, room, v, line, w, blocked);
      if blocked {
        j, entered, ok := i, false, true;
        return;
      }
      NoReturnKey(inputs[next - 1].code);
      j, entered, ok := Take(c, buf, i);
      ReachedByKey(v0, inputs, next, room, w, line, if ok then Some(Now()) else None, if ok then buf[..j] else line);
    }

    /**
     get_line, on a finite stream of inputs; `done` is false when the stream ends while it still waits for a
     key, so the contract says what holds after every key. Unless the kernel faults, the line in the buffer is
     the stack editor's and the screen is exactly what Display says. If no other task draws in its cells, the
     screen shows the line if and only if no character is erased across the end of a row and the line stays in
     video memory.
     */
    method GetLine(inputs: seq<Input>, buf: array<byte>, size: word)
      returns (len: nat, used: nat, done: bool, ok: bool)
      requires Valid() && 1 <= size <= buf.Length
      modifies this, vram, buf
      ensures used <= |inputs| && len < size
      ensures ok <==> Display(old(Now()), [], inputs, size - 1).Some?
      ensures ok ==> Display(old(Now()), [], inputs, size - 1) == Some(Now())
      ensures ok ==> var r := Edit([], inputs, size - 1);
        r.line == buf[..len] && r.rest == inputs[used..] && (done <==> !r.phase.Waiting?)
      ensures ok && done ==> buf[len] == 0
      ensures forall k :: size <= k < buf.Length ==> buf[k] == old(buf[k])
      ensures EchoAsStated(old(Now()), inputs, size - 1)
    {
      ghost var v0 := Now();
      var i: nat, entered, blocked := 0, false, false;
      used, ok := 0, true;
      while i < size - 1 && !entered && !blocked && ok
        invariant used <= |inputs| && i <= size - 1 && (blocked ==> i < size - 1 && !entered)
        invariant ok ==> Reached(v0, inputs, size - 1, Now(), buf[..i], inputs[used..], entered, blocked)
        invariant !ok ==> Display(v0, [], inputs, size - 1).None?
        invariant forall k :: size <= k < buf.Length ==> buf[k] == old(buf[k])
        decreases |inputs| - used, !blocked
      {
        used, i, entered, blocked, ok := Round(v0, inputs, used, buf, i, size - 1);
      }
      len, done := i, !blocked;
      if ok {
        ReachedEnd(v0, inputs, size - 1, Now(), buf[..i], inputs[used..], entered, blocked);
        if !blocked {
          buf[i] := 0;
        }
      }
      EchoIsStated(v0, inputs, size - 1);
    }
  }
}
