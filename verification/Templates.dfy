/** Replacement templates of Python's `re` module, for a pattern without groups: what `subn` makes of a backslash. */
module Templates {
  import opened Domain

  predicate OctalDigit(c: char) { '0' <= c <= '7' }
  predicate Digit(c: char) { '0' <= c <= '9' }
  predicate Letter(c: char) { 'a' <= c <= 'z' || 'A' <= c <= 'Z' }

  function OctalValue(c: char): nat
    requires OctalDigit(c)
  {
    c as nat - '0' as nat
  }

  /** The control character or backslash an escape letter stands for. */
  function Escape(c: char): Option<char> {
    if c == 'a' then Some(7 as char)
    else if c == 'b' then Some(8 as char)
    else if c == 't' then Some(9 as char)
    else if c == 'n' then Some('\n')
    else if c == 'v' then Some(11 as char)
    else if c == 'f' then Some(12 as char)
    else if c == 'r' then Some('\r')
    else if c == '\\' then Some('\\')
    else None
  }

  /** One piece of a template: how many characters it takes, and what it stands for. */
  datatype Piece = Char(c: char, used: nat) | Kept(used: nat) | Whole(used: nat) | Bad

  function Zeros(t: string): (n: nat)
    ensures n <= |t|
  {
    if t != "" && t[0] == '0' then 1 + Zeros(t[1..]) else 0
  }

  /** After `\g`: only group 0, the whole match, exists. */
  function GroupPiece(t: string): Piece
    requires |t| >= 2
  {
    if |t| == 2 || t[2] != '<' then Bad
    else
      var zeros := Zeros(t[3..]);
      if zeros > 0 && 3 + zeros < |t| && t[3 + zeros] == '>' then Whole(4 + zeros) else Bad
  }

  /** After `\0`: up to two more octal digits. */
  function NulPiece(t: string): Piece
    requires |t| >= 2
  {
    if |t| == 2 || !OctalDigit(t[2]) then Char(0 as char, 2)
    else if |t| == 3 || !OctalDigit(t[3]) then Char(OctalValue(t[2]) as char, 3)
    else Char((8 * OctalValue(t[2]) + OctalValue(t[3])) as char, 4)
  }

  /** After a backslash and a digit other than 0: three octal digits up to 0o377, or a group that does not exist. */
  function DigitPiece(t: string): Piece
    requires |t| >= 2
  {
    if |t| >= 4 && '1' <= t[1] <= '3' && OctalDigit(t[2]) && OctalDigit(t[3]) then
      Char((64 * OctalValue(t[1]) + 8 * OctalValue(t[2]) + OctalValue(t[3])) as char, 4)
    else Bad
  }

  /** The first piece of a template that is not empty. A backslash before anything else is left alone. */
  function First(t: string): (p: Piece)
    requires t != ""
    ensures !p.Bad? ==> 0 < p.used <= |t|
  {
    if t[0] != '\\' then Kept(1)
    else if |t| == 1 then Bad
    else if t[1] == 'g' then GroupPiece(t)
    else if t[1] == '0' then NulPiece(t)
    else if Digit(t[1]) then DigitPiece(t)
    else if Escape(t[1]).Some? then Char(Escape(t[1]).value, 2)
    else if Letter(t[1]) then Bad
    else Kept(2)
  }

  /** Whether `re` accepts a template. */
  predicate WellFormed(t: string) {
    t == "" || (!First(t).Bad? && WellFormed(t[First(t).used..]))
  }

  /** What a piece stands for. */
  function Meaning(p: Piece, t: string, whole: string): string
    requires !p.Bad? && p.used <= |t|
  {
    match p
    case Char(c, _) => [c]
    case Kept(n) => t[..n]
    case Whole(_) => whole
  }

  /** The replacement a template stands for when the match was `whole`, None when `re` raises. */
  function Expand(t: string, whole: string): (r: Option<string>)
    ensures r.Some? <==> WellFormed(t)
  {
    if t == "" then Some("")
    else
      var p := First(t);
      if p.Bad? then None
      else
        var rest := Expand(t[p.used..], whole);
        if rest.None? then None else Some(Meaning(p, t, whole) + rest.value)
  }

  /** Nothing in it stands for anything else: no backslash comes before a letter, a digit or another backslash. */
  predicate Plain(t: string) {
    t == "" || (First(t).Kept? && Plain(t[First(t).used..]))
  }

  lemma {:induction false} PlainIsVerbatim(t: string, whole: string)
    requires Plain(t)
    ensures Expand(t, whole) == Some(t) && WellFormed(t)
  {
    if t != "" {
      var n := First(t).used;
      PlainIsVerbatim(t[n..], whole);
      assert t == t[..n] + t[n..];
    }
  }

  function Backslashes(t: string): nat {
    if t == "" then 0 else (if t[0] == '\\' then 1 else 0) + Backslashes(t[1..])
  }

  lemma {:induction false} BackslashesAdd(a: string, b: string)
    ensures Backslashes(a + b) == Backslashes(a) + Backslashes(b)
  {
    if a == "" {
      assert a + b == b;
    } else {
      BackslashesAdd(a[1..], b);
      assert (a + b)[1..] == a[1..] + b;
    }
  }

  /** Fewer backslashes, or as many and fewer characters. */
  predicate Shrunk(now: string, was: string) {
    Backslashes(now) < Backslashes(was) || (Backslashes(now) == Backslashes(was) && |now| < |was|)
  }

  lemma ShrinkTogether(a': string, a: string, b': string, b: string)
    requires (a' == a && Shrunk(b', b)) || (Shrunk(a', a) && (b' == b || Shrunk(b', b)))
    ensures Shrunk(a' + b', a + b)
  {
    BackslashesAdd(a', b');
    BackslashesAdd(a, b);
  }

  /** With no backslash in the match, a piece that changes loses a backslash, or keeps its one and gets shorter. */
  lemma PieceShrinks(t: string, whole: string)
    requires t != "" && !First(t).Bad? && Backslashes(whole) == 0
    ensures var p := First(t);
            var was, now := t[..p.used], Meaning(p, t, whole);
            if p.Kept? then now == was else Shrunk(now, was)
  {
    var p := First(t);
    var was := t[..p.used];
    if !p.Kept? {
      assert was[0] == '\\' && Backslashes(was) >= 1;
      if p.Char? {
        var now := [p.c];
        assert now[1..] == "";
        assert Backslashes(now) <= 1;
      }
    }
  }

  lemma ExpandStep(t: string, whole: string)
    requires t != "" && WellFormed(t)
    ensures !First(t).Bad? && WellFormed(t[First(t).used..])
    ensures Expand(t, whole).value == Meaning(First(t), t, whole) + Expand(t[First(t).used..], whole).value
  {
  }

  /** So does a template, unless it is plain. */
  lemma {:induction false} ExpansionShrinks(t: string, whole: string)
    requires WellFormed(t) && Backslashes(whole) == 0
    ensures if Plain(t) then Expand(t, whole).value == t else Shrunk(Expand(t, whole).value, t)
  {
    if t != "" {
      var p := First(t);
      var piece, rest := t[..p.used], t[p.used..];
      ExpandStep(t, whole);
      PlainStep(t);
      PieceShrinks(t, whole);
      ExpansionShrinks(rest, whole);
      TwoPieces(Meaning(p, t, whole), piece, Expand(rest, whole).value, rest, p.Kept?, Plain(rest));
    }
  }

  lemma TwoPieces(now: string, piece: string, next: string, rest: string, kept: bool, plain: bool)
    requires if kept then now == piece else Shrunk(now, piece)
    requires if plain then next == rest else Shrunk(next, rest)
    ensures if kept && plain then now + next == piece + rest else Shrunk(now + next, piece + rest)
  {
    if !(kept && plain) { ShrinkTogether(now, piece, next, rest); }
  }

  lemma PlainStep(t: string)
    requires t != "" && !First(t).Bad?
    ensures Plain(t) <==> First(t).Kept? && Plain(t[First(t).used..])
    ensures t == t[..First(t).used] + t[First(t).used..]
  {
  }

  /** When the match has no backslash, a template is its own replacement exactly when it is plain. */
  lemma {:induction false} VerbatimIff(t: string, whole: string)
    requires Backslashes(whole) == 0
    ensures Expand(t, whole) == Some(t) <==> Plain(t)
  {
    if Plain(t) {
      PlainIsVerbatim(t, whole);
    } else if WellFormed(t) {
      ExpansionShrinks(t, whole);
    }
  }

  /** The template refers to the whole match. */
  predicate UsesWhole(t: string) {
    t != "" && (First(t).Whole? || (!First(t).Bad? && UsesWhole(t[First(t).used..])))
  }

  /** A template that does not refer to the match stands for the same whatever the match. */
  lemma {:induction false} WholeUnused(t: string, whole: string, other: string)
    requires !UsesWhole(t)
    ensures Expand(t, whole) == Expand(t, other)
  {
    if t != "" && !First(t).Bad? { WholeUnused(t[First(t).used..], whole, other); }
  }

  lemma Shifted(a: string, b: string, k: nat, piece: string)
    requires k + |piece| <= |b| && b[k..k + |piece|] == piece
    ensures (a + b)[|a| + k..|a| + k + |piece|] == piece
  {
  }

  /** One that does has the match in its replacement. */
  lemma {:induction false} WholeAppears(t: string, whole: string) returns (k: nat)
    requires WellFormed(t) && UsesWhole(t)
    ensures var now := Expand(t, whole).value; k + |whole| <= |now| && now[k..k + |whole|] == whole
  {
    ExpandStep(t, whole);
    var p := First(t);
    var rest := Expand(t[p.used..], whole).value;
    if p.Whole? {
      k := 0;
      assert (whole + rest)[..|whole|] == whole;
    } else {
      var l := WholeAppears(t[p.used..], whole);
      k := |Meaning(p, t, whole)| + l;
      Shifted(Meaning(p, t, whole), rest, l, whole);
    }
  }

  /** A template that is its own replacement without being plain contains the match, whatever the match. */
  lemma {:induction false} VerbatimContains(t: string, whole: string) returns (k: nat)
    requires Expand(t, whole) == Some(t) && !Plain(t)
    ensures k + |whole| <= |t| && t[k..k + |whole|] == whole
  {
    if !UsesWhole(t) {
      WholeUnused(t, whole, "");
      VerbatimIff(t, "");
    }
    k := WholeAppears(t, whole);
  }

  // ---- Templates put together ----------------------------------------------

  lemma {:induction false} LiteralIsPlain(t: string)
    requires Backslashes(t) == 0
    ensures Plain(t)
  {
    if t != "" { LiteralIsPlain(t[1..]); }
  }

  lemma {:induction false} ZerosStop(t: string, more: string)
    requires t != "" && t[|t| - 1] == '\n'
    ensures Zeros(t + more) == Zeros(t) < |t|
  {
    assert (t + more)[0] == t[0];
    if t[0] == '0' {
      ZerosStop(t[1..], more);
      assert (t + more)[1..] == t[1..] + more;
    }
  }

  /** No piece reaches past a newline. */
  lemma PieceStops(t: string, more: string)
    requires t != "" && t[|t| - 1] == '\n'
    ensures First(t + more) == First(t)
  {
    if |t| > 3 {
      ZerosStop(t[3..], more);
      assert (t + more)[3..] == t[3..] + more;
    }
  }

  lemma FirstOf(t: string, more: string)
    requires t != "" && t[|t| - 1] == '\n'
    ensures First(t + more) == First(t)
    ensures !First(t).Bad? ==>
              var n := First(t).used;
              && (t + more)[n..] == t[n..] + more && (t + more)[..n] == t[..n]
              && (t[n..] == "" || t[n..][|t[n..]| - 1] == '\n')
  {
    PieceStops(t, more);
  }

  /** What stands behind a newline is a template of its own. */
  lemma {:induction false} Cut(t: string, more: string)
    requires t == "" || t[|t| - 1] == '\n'
    ensures WellFormed(t + more) <==> WellFormed(t) && WellFormed(more)
    ensures Plain(t + more) <==> Plain(t) && Plain(more)
  {
    if t == "" {
      assert t + more == more;
    } else {
      FirstOf(t, more);
      if !First(t).Bad? { Cut(t[First(t).used..], more); }
    }
  }

  lemma {:induction false} CutExpands(t: string, more: string, whole: string)
    requires t == "" || t[|t| - 1] == '\n'
    requires WellFormed(t) && WellFormed(more) && WellFormed(t + more)
    ensures Expand(t + more, whole).value == Expand(t, whole).value + Expand(more, whole).value
  {
    if t == "" {
      assert t + more == more;
    } else {
      FirstOf(t, more);
      var p := First(t);
      var now, rest := Meaning(p, t, whole), t[p.used..];
      CutExpands(rest, more, whole);
      ExpandStep(t + more, whole);
      ExpandStep(t, whole);
      Associate(now, Expand(rest, whole).value, Expand(more, whole).value);
    }
  }

  lemma Associate(a: string, b: string, c: string)
    ensures (a + b) + c == a + (b + c)
  {
  }

  /** A literal line, a body on lines of its own, and a literal line. */
  lemma {:induction false} Around(s: string, body: string, e: string, whole: string)
    requires Backslashes(s) == 0 && Backslashes(e) == 0
    ensures var t := s + "\n" + (body + "\n") + e;
            && (WellFormed(t) <==> WellFormed(body + "\n")) && (Plain(t) <==> Plain(body + "\n"))
            && (WellFormed(t) ==> Expand(t, whole).value == s + "\n" + Expand(body + "\n", whole).value + e)
  {
    var head, middle := s + "\n", body + "\n";
    BackslashesAdd(s, "\n");
    LiteralIsPlain(head);
    LiteralIsPlain(e);
    PlainIsVerbatim(head, whole);
    PlainIsVerbatim(e, whole);
    Cut(head, middle);
    Cut(head + middle, e);
    if WellFormed(middle) {
      CutExpands(head, middle, whole);
      CutExpands(head + middle, e, whole);
    }
  }

  // ---- Single escapes ------------------------------------------------------

  lemma OnePiece(t: string, whole: string)
    requires t != "" && (!First(t).Bad? ==> First(t).used == |t|)
    ensures Expand(t, whole) == if First(t).Bad? then None else Some(Meaning(First(t), t, whole))
  {
    if !First(t).Bad? {
      var now := Meaning(First(t), t, whole);
      assert t[|t|..] == "" && now + "" == now;
    }
  }

  /** What a backslash and one more character stand for. */
  lemma {:induction false} EscapeTable(c: char, whole: string)
    ensures c == 'n' ==> Expand(['\\', c], whole) == Some(['\n'])
    ensures c == 't' ==> Expand(['\\', c], whole) == Some(['\t'])
    ensures c == 'r' ==> Expand(['\\', c], whole) == Some(['\r'])
    ensures c == 'a' ==> Expand(['\\', c], whole) == Some([7 as char])
    ensures c == 'b' ==> Expand(['\\', c], whole) == Some([8 as char])
    ensures c == 'v' ==> Expand(['\\', c], whole) == Some([11 as char])
    ensures c == 'f' ==> Expand(['\\', c], whole) == Some([12 as char])
    ensures c == '0' ==> Expand(['\\', c], whole) == Some([0 as char])
    ensures c == '\\' ==> Expand(['\\', c], whole) == Some(['\\'])
    ensures c == '-' ==> Expand(['\\', c], whole) == Some(['\\', '-'])
    ensures 'c' <= c <= 'e' || 'g' <= c <= 'm' || 'o' <= c <= 'q' || c == 's' || c == 'u' || 'w' <= c <= 'z' ==>
              Expand(['\\', c], whole) == None
    ensures 'A' <= c <= 'Z' || '1' <= c <= '9' ==> Expand(['\\', c], whole) == None
  {
    OnePiece(['\\', c], whole);
    assert ['\\', c][..2] == ['\\', c];
  }

  lemma GroupZero(whole: string)
    ensures Expand(['\\', 'g', '<', '0', '>'], whole) == Some(whole)
  {
    var t := ['\\', 'g', '<', '0', '>'];
    assert t[3..] == ['0', '>'] && t[3..][1..] == ['>'];
    OnePiece(t, whole);
  }

  lemma OtherGroups(c: char, whole: string)
    requires '1' <= c <= '9'
    ensures Expand(['\\', 'g', '<', c, '>'], whole) == None
  {
    var t := ['\\', 'g', '<', c, '>'];
    assert t[3..][0] == c;
    OnePiece(t, whole);
  }

  lemma Octal(x: char, y: char, z: char, whole: string)
    requires OctalDigit(x) && OctalDigit(y) && OctalDigit(z) && x != '0'
    ensures Expand(['\\', x, y, z], whole) ==
            var n := 64 * (x as int - 48) + 8 * (y as int - 48) + (z as int - 48);
            if n <= 255 then Some([n as char]) else None
  {
    OnePiece(['\\', x, y, z], whole);
  }

  /** The whole match, the groups that do not exist, and characters by their octal numbers. */
  lemma {:induction false} NumberedEscapes(whole: string)
    ensures Expand("\\g<0>", whole) == Some(whole) && Expand("\\g<1>", whole) == None
    ensures Expand("\\101", whole) == Some("A") && Expand("\\400", whole) == None
  {
    GroupZero(whole);
    OtherGroups('1', whole);
    Octal('1', '0', '1', whole);
    Octal('4', '0', '0', whole);
    assert "\\g<0>" == ['\\', 'g', '<', '0', '>'] && "\\g<1>" == ['\\', 'g', '<', '1', '>'];
    assert "\\101" == ['\\', '1', '0', '1'] && "\\400" == ['\\', '4', '0', '0'] && "A" == [65 as char];
  }
}
