/** The kernel's small printf: the pointer-stepping loop against a grammar of format strings. */
module Printk {
  import opened Common
  import opened Numbers

  const PRINTK_BUF_SIZE: nat := 257
  const PERCENT: byte := 37
  const LETTER_C: byte := 99
  const LETTER_D: byte := 100
  const LETTER_L: byte := 108
  const LETTER_S: byte := 115
  const LETTER_U: byte := 117
  const LETTER_X: byte := 120

  type cstring = s: seq<byte> | 0 in s witness [0]

  datatype Arg = Int(n: int32) | Str(s: cstring)

  // ---- format strings ----

  /** A character to print, or a conversion after any number of length modifiers. */
  datatype Piece = Plain(c: byte) | Conversion(longs: nat, c: byte) {
    predicate WellFormed() {
      c != 0 && c != if Plain? then PERCENT else LETTER_L
    }

    function Text(): seq<byte> {
      if Plain? then [c] else Opening(longs) + [c]
    }
  }

  function Longs(k: nat): (r: seq<byte>)
    ensures |r| == k
  {
    seq(k, _ => LETTER_L)
  }

  function Opening(longs: nat): seq<byte> {
    [PERCENT] + Longs(longs)
  }

  ghost predicate WellFormed(pieces: seq<Piece>) {
    forall p :: p in pieces ==> p.WellFormed()
  }

  function Render(pieces: seq<Piece>): seq<byte> {
    if pieces == [] then [] else pieces[0].Text() + Render(pieces[1..])
  }

  /** The pieces of a format, of which `open` is what was read before: Some(k) for a '%' and k modifiers.
      None if the format ends before a conversion character. */
  function Parse(text: seq<byte>, open: Option<nat>): Option<seq<Piece>>
    decreases |text|
  {
    if text == [] then if open.None? then Some([]) else None
    else
      var longer := ReadOne(open, text[0]);
      var rest := Parse(text[1..], longer);
      if longer.Some? then rest
      else Cons(Complete(open, text[0]), rest)
  }

  /** What is open after one more character. */
  function ReadOne(open: Option<nat>, c: byte): Option<nat> {
    if open.None? then if c == PERCENT then Some(0) else None
    else if c == LETTER_L then Some(open.value + 1) else None
  }

  function Before(open: Option<nat>): seq<byte> {
    if open.None? then [] else Opening(open.value)
  }

  function Complete(open: Option<nat>, c: byte): Piece {
    if open.None? then Plain(c) else Conversion(open.value, c)
  }

  function Cons(p: Piece, rest: Option<seq<Piece>>): Option<seq<Piece>> {
    if rest.None? then None else Some([p] + rest.value)
  }

  lemma {:induction false} ParseLongs(j: nat, k: nat, rest: seq<byte>)
    ensures Parse(Longs(j) + rest, Some(k)) == Parse(rest, Some(k + j))
    decreases j
  {
    if j == 0 {
      assert Longs(0) + rest == rest;
    } else {
      assert (Longs(j) + rest)[1..] == Longs(j - 1) + rest;
      ParseLongs(j - 1, k + 1, rest);
    }
  }

  lemma ParsePiece(p: Piece, rest: seq<byte>)
    requires p.WellFormed()
    ensures Parse(p.Text() + rest, None) == Cons(p, Parse(rest, None))
  {
    var text := p.Text() + rest;
    if p.Plain? {
      assert text[0] == p.c && text[1..] == rest;
    } else {
      var tail := [p.c] + rest;
      assert text[0] == PERCENT && text[1..] == Longs(p.longs) + tail;
      ParseLongs(p.longs, 0, tail);
      assert tail[0] == p.c && tail[1..] == rest;
    }
  }

  /** Parsing finds the pieces a format was written from. */
  lemma {:induction false} ParseRender(pieces: seq<Piece>)
    requires WellFormed(pieces)
    ensures Parse(Render(pieces), None) == Some(pieces)
  {
    if pieces != [] {
      WellFormedParts(pieces);
      ParseRender(pieces[1..]);
      ParsePiece(pieces[0], Render(pieces[1..]));
    }
  }

  lemma WellFormedParts(pieces: seq<Piece>)
    requires WellFormed(pieces) && pieces != []
    ensures pieces[0].WellFormed() && WellFormed(pieces[1..]) && pieces == [pieces[0]] + pieces[1..]
  {
    assert pieces[0] in pieces && forall p :: p in pieces[1..] ==> p in pieces;
  }

  /** The text is well-formed but for a conversion at its end that has no conversion character. */
  ghost predicate EndsOpen(text: seq<byte>) {
    exists pieces, k: nat :: WellFormed(pieces) && text == Render(pieces) + Opening(k)
  }

  lemma OpenNow(k: nat)
    ensures EndsOpen(Opening(k))
  {
    assert Opening(k) == Render([]) + Opening(k);
  }

  lemma LaterOpen(p: Piece, text: seq<byte>)
    requires p.WellFormed() && EndsOpen(text)
    ensures EndsOpen(p.Text() + text)
  {
    var pieces, k: nat :| WellFormed(pieces) && text == Render(pieces) + Opening(k);
    assert ([p] + pieces)[1..] == pieces;
    assert p.Text() + text == Render([p] + pieces) + Opening(k);
  }

  /** Pieces that make up the text, or else a text that ends inside a conversion. */
  ghost predicate Describes(r: Option<seq<Piece>>, text: seq<byte>) {
    if r.Some? then WellFormed(r.value) && Render(r.value) == text else EndsOpen(text)
  }

  lemma DescribesCons(p: Piece, r: Option<seq<Piece>>, text: seq<byte>)
    requires p.WellFormed() && Describes(r, text)
    ensures Describes(Cons(p, r), p.Text() + text)
  {
    if r.Some? {
      assert ([p] + r.value)[1..] == r.value;
    } else {
      LaterOpen(p, text);
    }
  }

  lemma ReadOneText(open: Option<nat>, c: byte)
    requires c != 0
    ensures var longer := ReadOne(open, c);
      && (longer.Some? ==> Before(longer) == Before(open) + [c])
      && (longer.None? ==> Complete(open, c).WellFormed() && Complete(open, c).Text() == Before(open) + [c])
  {
  }

  /** What was parsed is the format; if nothing was, it ends inside a conversion. */
  lemma {:induction false} RenderParse(text: seq<byte>, open: Option<nat>)
    requires 0 !in text
    ensures Describes(Parse(text, open), Before(open) + text)
    decreases |text|
  {
    if text == [] {
      assert Before(open) + text == Before(open);
      if open.Some? {
        OpenNow(open.value);
      }
    } else {
      RenderParse(text[1..], ReadOne(open, text[0]));
      RenderParseOne(text[0], text[1..], open);
      assert text == [text[0]] + text[1..];
    }
  }

  lemma RenderParseOne(c: byte, rest: seq<byte>, open: Option<nat>)
    requires c != 0 && Describes(Parse(rest, ReadOne(open, c)), Before(ReadOne(open, c)) + rest)
    ensures Describes(Parse([c] + rest, open), Before(open) + ([c] + rest))
  {
    ParseOne(c, rest, open);
    ReadOneText(open, c);
    Regroup(Before(open), [c], rest);
    if ReadOne(open, c).None? {
      assert [] + rest == rest;
      DescribesCons(Complete(open, c), Parse(rest, None), rest);
    }
  }

  lemma ParseOne(c: byte, rest: seq<byte>, open: Option<nat>)
    ensures Parse([c] + rest, open) ==
      if ReadOne(open, c).Some? then Parse(rest, ReadOne(open, c))
      else Cons(Complete(open, c), Parse(rest, None))
  {
    assert ([c] + rest)[1..] == rest;
  }

  lemma {:induction false} ParseOpenEnd(pieces: seq<Piece>, k: nat)
    requires WellFormed(pieces)
    ensures Parse(Render(pieces) + Opening(k), None).None?
  {
    if pieces == [] {
      var text := Opening(k);
      assert Render(pieces) + text == text;
      assert text[0] == PERCENT && text[1..] == Longs(k) + [];
      ParseLongs(k, 0, []);
    } else {
      var rest := Render(pieces[1..]) + Opening(k);
      WellFormedParts(pieces);
      ParseOpenEnd(pieces[1..], k);
      ParsePiece(pieces[0], rest);
      assert Render(pieces) + Opening(k) == pieces[0].Text() + rest;
    }
  }

  /** The formats that have pieces are those written from pieces, and the others are exactly those that end
      inside a conversion. */
  lemma ParseExact(text: seq<byte>)
    requires 0 !in text
    ensures Parse(text, None).None? <==> EndsOpen(text)
    ensures forall pieces :: WellFormed(pieces) ==> (Render(pieces) == text <==> Parse(text, None) == Some(pieces))
  {
    RenderParse(text, None);
    assert Before(None) + text == text;
    if EndsOpen(text) {
      var pieces, k: nat :| WellFormed(pieces) && text == Render(pieces) + Opening(k);
      ParseOpenEnd(pieces, k);
    }
    forall pieces | WellFormed(pieces) ensures Render(pieces) == text <==> Parse(text, None) == Some(pieces) {
      if Render(pieces) == text {
        ParseRender(pieces);
      }
    }
  }

  // ---- what a format prints ----

  predicate TakesInt(c: byte) {
    c == LETTER_C || c == LETTER_D || c == LETTER_U || c == LETTER_X
  }

  /** Whether a conversion finds the argument it takes. */
  predicate Finds(c: byte, args: seq<Arg>) {
    && (TakesInt(c) ==> args != [] && args[0].Int?)
    && (c == LETTER_S ==> args != [] && args[0].Str?)
  }

  function Taken(p: Piece): nat {
    if p.Conversion? && (TakesInt(p.c) || p.c == LETTER_S) then 1 else 0
  }

  /** What one conversion prints: a character or an unsigned number comes out as a signed decimal, an unknown
      conversion as nothing. */
  function Shown(c: byte, args: seq<Arg>): seq<byte>
    requires Finds(c, args)
  {
    if c == LETTER_X then Numeral(Hexadecimal, args[0].n % WORD)
    else if TakesInt(c) then DecimalText(args[0].n)
    else if c == LETTER_S then CString(args[0].s)
    else []
  }

  /** What the pieces print; None if an argument is missing or of the wrong type. */
  function Meaning(pieces: seq<Piece>, args: seq<Arg>): Option<seq<byte>> {
    if pieces == [] then Some([])
    else
      var p, rest := pieces[0], pieces[1..];
      if p.Plain? then Prefix([p.c], Meaning(rest, args))
      else if !Finds(p.c, args) then None
      else Prefix(Shown(p.c, args), Meaning(rest, args[Taken(p)..]))
  }

  function Prefix(out: seq<byte>, rest: Option<seq<byte>>): Option<seq<byte>> {
    if rest.None? then None else Some(out + rest.value)
  }

  lemma PrefixPrefix(a: seq<byte>, b: seq<byte>, rest: Option<seq<byte>>)
    ensures Prefix(a, Prefix(b, rest)) == Prefix(a + b, rest)
  {
    if rest.Some? {
      assert a + (b + rest.value) == a + b + rest.value;
    }
  }

  lemma PrefixNothing(rest: Option<seq<byte>>)
    ensures Prefix([], rest) == rest
  {
    if rest.Some? {
      assert [] + rest.value == rest.value;
    }
  }

  function Output(text: seq<byte>, open: Option<nat>, args: seq<Arg>): Option<seq<byte>> {
    var pieces := Parse(text, open);
    if pieces.None? then None else Meaning(pieces.value, args)
  }

  function Arity(pieces: seq<Piece>): nat {
    if pieces == [] then 0 else Taken(pieces[0]) + Arity(pieces[1..])
  }

  /** Arguments are consumed in order: the second of two formats goes on where the first stopped. */
  lemma {:induction false} MeaningConcat(first: seq<Piece>, second: seq<Piece>, args: seq<Arg>)
    ensures Meaning(first + second, args) ==
      match Meaning(first, args)
      case None => None
      case Some(out) => Prefix(out, Meaning(second, args[if Arity(first) <= |args| then Arity(first) else |args|..]))
    ensures Meaning(first, args).Some? ==> Arity(first) <= |args|
  {
    if first == [] {
      assert first + second == second && args[0..] == args;
      PrefixNothing(Meaning(second, args));
    } else {
      var p := first[0];
      assert (first + second)[1..] == first[1..] + second;
      if p.Plain? {
        MeaningConcat(first[1..], second, args);
        if Meaning(first[1..], args).Some? {
          PrefixPrefix([p.c], Meaning(first[1..], args).value, Meaning(second, args[Arity(first)..]));
        }
      } else if Finds(p.c, args) {
        var left := args[Taken(p)..];
        MeaningConcat(first[1..], second, left);
        if Meaning(first[1..], left).Some? {
          assert left[Arity(first[1..])..] == args[Arity(first)..];
          PrefixPrefix(Shown(p.c, args), Meaning(first[1..], left).value, Meaning(second, args[Arity(first)..]));
        }
      }
    }
  }

  datatype Kind = AnInt | AString

  /** The kinds of the arguments that the pieces take, in order. */
  function Wanted(pieces: seq<Piece>): (r: seq<Kind>)
    ensures |r| == Arity(pieces)
  {
    if pieces == [] then []
    else
      var p := pieces[0];
      (if Taken(p) == 0 then [] else if p.c == LETTER_S then [AString] else [AnInt]) + Wanted(pieces[1..])
  }

  ghost predicate Suffice(wanted: seq<Kind>, args: seq<Arg>) {
    && |wanted| <= |args|
    && forall i :: 0 <= i < |wanted| ==> (args[i].Int? <==> wanted[i].AnInt?)
  }

  lemma SufficeCons(kind: Kind, wanted: seq<Kind>, args: seq<Arg>)
    ensures Suffice([kind] + wanted, args) <==>
      args != [] && (args[0].Int? <==> kind.AnInt?) && Suffice(wanted, args[1..])
  {
    if args != [] && Suffice([kind] + wanted, args) {
      assert ([kind] + wanted)[0] == kind;
      forall i | 0 <= i < |wanted| ensures args[1..][i].Int? <==> wanted[i].AnInt? {
        assert ([kind] + wanted)[i + 1] == wanted[i];
      }
    }
  }

  /** The pieces mean something exactly if each argument they take is there and of its kind. */
  lemma {:induction false} MeaningDefined(pieces: seq<Piece>, args: seq<Arg>)
    ensures Meaning(pieces, args).Some? <==> Suffice(Wanted(pieces), args)
  {
    if pieces != [] {
      var p, wanted := pieces[0], Wanted(pieces[1..]);
      if Taken(p) == 0 {
        assert args[0..] == args && [] + wanted == wanted;
        MeaningDefined(pieces[1..], args);
      } else {
        SufficeCons(if p.c == LETTER_S then AString else AnInt, wanted, args);
        if args != [] {
          MeaningDefined(pieces[1..], args[1..]);
        }
      }
    }
  }

  /** A call is in order if its format is complete and its arguments are there. */
  ghost predicate InOrder(text: seq<byte>, args: seq<Arg>) {
    exists pieces :: WellFormed(pieces) && Render(pieces) == text && Suffice(Wanted(pieces), args)
  }

  /** What printk prints is defined exactly for these calls, and is then what the pieces of the format mean. */
  lemma OutputDefined(text: seq<byte>, args: seq<Arg>)
    requires 0 !in text
    ensures Output(text, None, args).Some? <==> InOrder(text, args)
    ensures forall pieces :: WellFormed(pieces) && Render(pieces) == text ==>
      Output(text, None, args) == Meaning(pieces, args)
  {
    ParseExact(text);
    RenderParse(text, None);
    assert Before(None) + text == text;
    if Parse(text, None).Some? {
      MeaningDefined(Parse(text, None).value, args);
    }
  }

  ghost predicate SameButLongs(a: seq<Piece>, b: seq<Piece>) {
    && |a| == |b|
    && forall k :: 0 <= k < |a| ==> a[k].c == b[k].c && (a[k].Plain? <==> b[k].Plain?)
  }

  lemma {:induction false} LongsMeanNothing(a: seq<Piece>, b: seq<Piece>, args: seq<Arg>)
    requires SameButLongs(a, b)
    ensures Meaning(a, args) == Meaning(b, args)
  {
    if a != [] {
      LongsMeanNothing(a[1..], b[1..], args);
      if Taken(a[0]) <= |args| {
        LongsMeanNothing(a[1..], b[1..], args[Taken(a[0])..]);
      }
    }
  }

  /** Two formats that differ in their length modifiers only print the same. */
  lemma LongsTransparent(a: seq<Piece>, b: seq<Piece>, args: seq<Arg>)
    requires WellFormed(a) && WellFormed(b) && SameButLongs(a, b)
    ensures Output(Render(a), None, args) == Output(Render(b), None, args) == Meaning(a, args)
  {
    ParseRender(a);
    ParseRender(b);
    LongsMeanNothing(a, b, args);
  }

  // ---- what a format prints, from the left ----

  lemma OutputPiece(p: Piece, text: seq<byte>, args: seq<Arg>)
    requires p.WellFormed()
    ensures Output(p.Text() + text, None, args) ==
      if p.Plain? then Prefix([p.c], Output(text, None, args))
      else if !Finds(p.c, args) then None
      else Prefix(Shown(p.c, args), Output(text, None, args[Taken(p)..]))
  {
    ParsePiece(p, text);
    var rest := Parse(text, None);
    if rest.Some? {
      assert ([p] + rest.value)[1..] == rest.value;
    }
  }

  lemma OutputConversion(c: byte, text: seq<byte>, args: seq<Arg>)
    requires c != 0 && c != LETTER_L
    ensures Output([PERCENT, c] + text, None, args) ==
      if !Finds(c, args) then None else Prefix(Shown(c, args), Output(text, None, args[Taken(Conversion(0, c))..]))
  {
    assert Conversion(0, c).Text() == [PERCENT, c];
    OutputPiece(Conversion(0, c), text, args);
  }

  /** Characters other than '%' are printed as they are. */
  lemma PlainMeans(c: byte, text: seq<byte>, args: seq<Arg>)
    requires c != 0 && c != 37
    ensures Output([], None, args) == Some([]) && Output([37], None, args) == None
    ensures Output([c] + text, None, args) == Prefix([c], Output(text, None, args))
  {
    OutputPiece(Plain(c), text, args);
  }

  /** A letter 'l' after '%' counts for nothing. */
  lemma LongMeans(text: seq<byte>, args: seq<Arg>)
    ensures Output([37, 108] + text, None, args) == Output([37] + text, None, args)
  {
    var long, short := [37, 108] + text, [37] + text;
    assert long[1..] == [108] + text && short[1..] == text && ([108] + text)[1..] == text;
    OutputStep(long, args);
    OutputStep([108] + text, args);
    OutputStep(short, args);
  }

  /** "%d", "%c" and "%u" take an integer and print what reads as that integer in decimal. */
  lemma IntegerMeans(c: byte, text: seq<byte>, args: seq<Arg>) returns (out: seq<byte>)
    requires c == 100 || c == 99 || c == 117
    ensures args == [] || args[0].Str? ==> Output([37, c] + text, None, args) == None
    ensures args != [] && args[0].Int? ==>
      && Output([37, c] + text, None, args) == Prefix(out, Output(text, None, args[1..]))
      && if args[0].n == -0x8000_0000 then out == [45, 40] else ReadDecimal(out) == Some(args[0].n)
  {
    OutputConversion(c, text, args);
    out := [];
    if args != [] && args[0].Int? {
      out := DecimalText(args[0].n);
      DecimalRoundTrip(args[0].n);
    }
  }

  /** "%x" takes an integer and prints its 32 bits in hexadecimal. */
  lemma BitsMeans(text: seq<byte>, args: seq<Arg>) returns (out: seq<byte>)
    ensures args == [] || args[0].Str? ==> Output([37, 120] + text, None, args) == None
    ensures args != [] && args[0].Int? ==>
      && Output([37, 120] + text, None, args) == Prefix(out, Output(text, None, args[1..]))
      && Value(Hexadecimal, out) == (if args[0].n < 0 then args[0].n + 0x1_0000_0000 else args[0].n)
      && forall c :: c in out ==> 48 <= c <= 57 || 97 <= c <= 102
  {
    OutputConversion(120, text, args);
    out := [];
    if args != [] && args[0].Int? {
      out := Numeral(Hexadecimal, args[0].n % WORD);
      ValueOfNumeral(Hexadecimal, args[0].n % WORD);
      NumeralIsCanonical(Hexadecimal, args[0].n % WORD);
    }
  }

  /** "%s" takes a string and prints it up to its terminator. */
  lemma StringMeans(text: seq<byte>, args: seq<Arg>) returns (out: seq<byte>)
    ensures args == [] || args[0].Int? ==> Output([37, 115] + text, None, args) == None
    ensures args != [] && args[0].Str? ==>
      && Output([37, 115] + text, None, args) == Prefix(out, Output(text, None, args[1..]))
      && 0 !in out && out + [0] <= args[0].s
  {
    OutputConversion(115, text, args);
    out := [];
    if args != [] && args[0].Str? {
      out := CString(args[0].s);
    }
  }

  /** Any other conversion prints nothing and takes nothing. */
  lemma UnknownMeans(c: byte, text: seq<byte>, args: seq<Arg>)
    requires c !in {0, 99, 100, 108, 115, 117, 120}
    ensures Output([37, c] + text, None, args) == Output(text, None, args)
  {
    OutputConversion(c, text, args);
    assert args[0..] == args;
    PrefixNothing(Output(text, None, args));
  }

  // ---- the loop ----

  lemma {:induction false} ParseOpen(text: seq<byte>, j: nat, k: nat)
    ensures var a, b := Parse(text, Some(j)), Parse(text, Some(k));
      (a.None? && b.None?) || (a.Some? && b.Some? && SameButLongs(a.value, b.value))
    decreases |text|
  {
    if text != [] && text[0] == LETTER_L {
      ParseOpen(text[1..], j + 1, k + 1);
    }
  }

  /** The loop forgets how many modifiers it has skipped, which is no matter. */
  lemma OpenForgotten(text: seq<byte>, j: nat, k: nat, args: seq<Arg>)
    ensures Output(text, Some(j), args) == Output(text, Some(k), args)
  {
    ParseOpen(text, j, k);
    if Parse(text, Some(j)).Some? {
      LongsMeanNothing(Parse(text, Some(j)).value, Parse(text, Some(k)).value, args);
    }
  }

  /** What is left to print after one character of the format. */
  lemma OutputStep(text: seq<byte>, args: seq<Arg>)
    requires text != []
    ensures var c, rest := text[0], text[1..];
      && (c == PERCENT ==> Output(text, None, args) == Output(rest, Some(0), args))
      && (c != PERCENT ==> Output(text, None, args) == Prefix([c], Output(rest, None, args)))
      && (c == LETTER_L ==> Output(text, Some(0), args) == Output(rest, Some(0), args))
      && (c != LETTER_L && !Finds(c, args) ==> Output(text, Some(0), args) == None)
      && (c != LETTER_L && Finds(c, args) ==>
        && Taken(Conversion(0, c)) <= |args|
        && Output(text, Some(0), args) == Prefix(Shown(c, args), Output(rest, None, args[Taken(Conversion(0, c))..])))
  {
    OpenForgotten(text[1..], 0, 1, args);
  }

  method PutStr(s: cstring) returns (out: seq<byte>)
    ensures out == CString(s)
  {
    out := [];
    while s[|out|] != 0
      invariant |out| <= |CString(s)| && out == s[..|out|]
      decreases |CString(s)| - |out|
    {
      out := out + [s[|out|]];
    }
    CStringUnique(s, |out|);
  }

  lemma TextHasNoNul(buf: seq<byte>, text: seq<byte>)
    requires IsCString(buf, text) && 0 !in text
    ensures 0 in buf && CString(buf) == text
  {
    forall k | 0 <= k < |text| ensures buf[k] != 0 {
      assert buf[k] == text[k];
      assert text[k] in text;
    }
    CStringUnique(buf, |text|);
  }

  /** The cases of the switch that take an argument. */
  method Convert(c: byte, args: seq<Arg>) returns (out: seq<byte>)
    requires Taken(Conversion(0, c)) == 1 && Finds(c, args)
    ensures out == Shown(c, args)
  {
    if c == LETTER_S {
      out := PutStr(args[0].s);
      return;
    }
    var n := args[0].n;
    var buf := new byte[PRINTK_BUF_SIZE](_ => 0);
    if c == LETTER_X {
      NumeralIsCanonical(Hexadecimal, n % WORD);
      Itox(n % WORD, buf);
    } else {
      NumeralIsCanonical(Decimal, if n < 0 then -n else n);
      Itoa(n, buf);
    }
    TextHasNoNul(buf[..], Shown(c, args));
    out := PutStr(buf[..]);
  }

  /** What the loop has still to print at position p with the argument at position a next. */
  function Ahead(text: seq<byte>, args: seq<Arg>, p: nat, a: nat, longflag: bool): Option<seq<byte>>
    requires p <= |text| && a <= |args| && (longflag ==> p < |text|)
  {
    if longflag then Output(text[p + 1..], Some(0), args[a..]) else Output(text[p..], None, args[a..])
  }

  ghost predicate Printing(text: seq<byte>, args: seq<Arg>, p: nat, a: nat, longflag: bool, printed: seq<byte>)
    requires p <= |text| && a <= |args| && (longflag ==> p < |text|)
  {
    Output(text, None, args) == Prefix(printed, Ahead(text, args, p, a, longflag))
  }

  lemma PrintingStarts(text: seq<byte>, args: seq<Arg>)
    ensures Printing(text, args, 0, 0, false, [])
  {
    assert text[0..] == text && args[0..] == args;
    PrefixNothing(Output(text, None, args));
  }

  lemma PrintingEnds(text: seq<byte>, args: seq<Arg>, a: nat, printed: seq<byte>)
    requires a <= |args| && Printing(text, args, |text|, a, false, printed)
    ensures Output(text, None, args) == Some(printed)
  {
    assert text[|text|..] == [];
    assert printed + [] == printed;
  }

  lemma PrintingPlain(text: seq<byte>, args: seq<Arg>, p: nat, a: nat, printed: seq<byte>)
    requires p < |text| && a <= |args| && text[p] != PERCENT && Printing(text, args, p, a, false, printed)
    ensures Printing(text, args, p + 1, a, false, printed + [text[p]])
  {
    OutputStep(text[p..], args[a..]);
    assert text[p..][1..] == text[p + 1..];
    PrefixPrefix(printed, [text[p]], Output(text[p + 1..], None, args[a..]));
  }

  /** The switch on the character behind the one at p. */
  lemma PrintingSwitch(text: seq<byte>, args: seq<Arg>, p: nat, a: nat, longflag: bool, printed: seq<byte>)
    requires p < |text| && a <= |args| && Printing(text, args, p, a, longflag, printed)
    requires longflag || text[p] == PERCENT
    ensures p + 1 == |text| ==> Output(text, None, args).None?
    ensures p + 1 < |text| && text[p + 1] == LETTER_L ==> Printing(text, args, p + 1, a, true, printed)
    ensures p + 1 < |text| && text[p + 1] != LETTER_L ==> var c := text[p + 1];
      if !Finds(c, args[a..]) then Output(text, None, args).None?
      else
        && a + Taken(Conversion(0, c)) <= |args|
        && Printing(text, args, p + 2, a + Taken(Conversion(0, c)), false, printed + Shown(c, args[a..]))
  {
    var rest := text[p + 1..];
    if !longflag {
      OutputStep(text[p..], args[a..]);
      assert text[p..][1..] == rest;
    }
    assert Output(text, None, args) == Prefix(printed, Output(rest, Some(0), args[a..]));
    if rest != [] {
      var c := rest[0];
      OutputStep(rest, args[a..]);
      assert rest[1..] == text[p + 2..];
      if c != LETTER_L && Finds(c, args[a..]) {
        var taken := Taken(Conversion(0, c));
        assert args[a..][taken..] == args[a + taken..];
        PrefixPrefix(printed, Shown(c, args[a..]), Output(text[p + 2..], None, args[a + taken..]));
      }
    }
  }

  /** printk; None if it would read past the format or take an argument that is not there. */
  method Printk(fmt: cstring, args: seq<Arg>) returns (out: Option<seq<byte>>)
    ensures out == Output(CString(fmt), None, args)
  {
    ghost var text := CString(fmt);
    var p, a, longflag, printed := 0, 0, false, [];
    PrintingStarts(text, args);
    while fmt[p] != 0
      invariant p <= |text| && a <= |args| && (longflag ==> p < |text|)
      invariant Printing(text, args, p, a, longflag, printed)
      decreases |text| - p
    {
      if fmt[p] == PERCENT || longflag {
        PrintingSwitch(text, args, p, a, longflag, printed);
        longflag := false;
        p := p + 1;
        var c := fmt[p];
        if c == 0 {
          return None;
        }
        if c == LETTER_L {
          longflag := true;
          p := p - 1;
        } else if Taken(Conversion(0, c)) == 1 {
          if !Finds(c, args[a..]) {
            return None;
          }
          var shown := Convert(c, args[a..]);
          printed := printed + shown;
          a := a + 1;
        } else {
          assert printed + [] == printed;
        }
        p := p + 1;
      } else {
        PrintingPlain(text, args, p, a, printed);
        printed := printed + [fmt[p]];
        p := p + 1;
      }
    }
    CStringUnique(fmt, p);
    PrintingEnds(text, args, a, printed);
    return Some(printed);
  }
}
