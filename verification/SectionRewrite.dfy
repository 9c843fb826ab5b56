/** Rewriting the generated sections of PROJECT.md: find the one marked block, replace what is between its markers. */
module SectionRewrite {
  import opened Domain
  import Templates

  predicate Occurs(text: string, pattern: string, k: nat) {
    k + |pattern| <= |text| && text[k..k + |pattern|] == pattern
  }

  /** The first occurrence at or after `from`. */
  function Find(text: string, pattern: string, from: nat): (r: Option<nat>)
    ensures r.Some? ==> from <= r.value && r.value + |pattern| <= |text|
    decreases if from <= |text| then |text| - from + 1 else 0
  {
    if from + |pattern| > |text| then None
    else if Occurs(text, pattern, from) then Some(from)
    else Find(text, pattern, from + 1)
  }

  /** i is the first place at or after `from` where the pattern occurs. */
  ghost predicate FirstAt(text: string, pattern: string, from: nat, i: nat) {
    from <= i && Occurs(text, pattern, i) && forall k: nat :: from <= k < i ==> !Occurs(text, pattern, k)
  }

  lemma {:induction false} FindIsFirst(text: string, pattern: string, from: nat)
    ensures var r := Find(text, pattern, from);
            if r.None? then forall k: nat :: from <= k ==> !Occurs(text, pattern, k)
            else FirstAt(text, pattern, from, r.value)
    decreases if from <= |text| then |text| - from + 1 else 0
  {
    if from + |pattern| <= |text| && !Occurs(text, pattern, from) { FindIsFirst(text, pattern, from + 1); }
  }

  lemma {:induction false} FirstIsFound(text: string, pattern: string, from: nat, i: nat)
    requires FirstAt(text, pattern, from, i)
    ensures Find(text, pattern, from) == Some(i)
    decreases i - from
  {
    if from < i { FirstIsFound(text, pattern, from + 1, i); }
  }

  /** Where a block's two markers begin. */
  datatype Span = Span(start: nat, end: nat)

  /** The first `start.*?end` match at or after `from`: no later start can match if the first one does not. */
  function NextBlock(text: string, s: string, e: string, from: nat): (r: Option<Span>)
    ensures r.Some? ==> from <= r.value.start && r.value.start + |s| <= r.value.end && r.value.end + |e| <= |text|
  {
    var i := Find(text, s, from);
    if i.None? then None
    else
      var j := Find(text, e, i.value + |s|);
      if j.None? then None else Some(Span(i.value, j.value))
  }

  function CountBlocks(text: string, s: string, e: string, from: nat): nat
    requires s != ""
    decreases if from <= |text| then |text| - from + 1 else 0
  {
    var b := NextBlock(text, s, e, from);
    if b.None? then 0 else 1 + CountBlocks(text, s, e, b.value.end + |e|)
  }

  /** The text with the block at i..j rewritten around the body. */
  function Splice(text: string, s: string, e: string, i: nat, j: nat, body: string): string
    requires i <= |text| && j + |e| <= |text|
  {
    text[..i] + s + "\n" + body + "\n" + e + text[j + |e|..]
  }

  /** A rewritten text, or one of the two ways to fail: `re` rejects the template, or there is not exactly one block. */
  datatype Outcome = Done(text: string) | BadTemplate | NotOneBlock

  /** The replacement, which `subn` reads as a template. */
  function Template(s: string, e: string, body: string): string { s + "\n" + (body + "\n") + e }

  /** The template is parsed first, whatever the text. */
  function ReplaceBetween(text: string, s: string, e: string, body: string): Outcome
    requires s != ""
  {
    var template := Template(s, e, body);
    if !Templates.WellFormed(template) then BadTemplate
    else if CountBlocks(text, s, e, 0) != 1 then NotOneBlock
    else
      var b := NextBlock(text, s, e, 0);
      if b.None? then NotOneBlock
      else
        var i, j := b.value.start, b.value.end + |e|;
        Done(text[..i] + Templates.Expand(template, text[i..j]).value + text[j..])
  }

  // ---- One block, in terms of occurrences ----------------------------------

  /** No s at or after `from` is followed by an e. */
  ghost predicate NoBlock(text: string, s: string, e: string, from: nat) {
    forall k: nat, l: nat :: from <= k && k + |s| <= l && Occurs(text, s, k) ==> !Occurs(text, e, l)
  }

  /** s first occurs at i, e first occurs after that at j, and no further s is followed by an e. */
  ghost predicate OnlyBlock(text: string, s: string, e: string, i: nat, j: nat) {
    FirstAt(text, s, 0, i) && FirstAt(text, e, i + |s|, j) && NoBlock(text, s, e, j + |e|)
  }

  lemma NoBlockIff(text: string, s: string, e: string, from: nat)
    ensures NextBlock(text, s, e, from).None? <==> NoBlock(text, s, e, from)
  {
    var i := Find(text, s, from);
    FindIsFirst(text, s, from);
    if i.Some? {
      var j := Find(text, e, i.value + |s|);
      FindIsFirst(text, e, i.value + |s|);
      if j.None? {
        forall k: nat, l: nat | from <= k && k + |s| <= l && Occurs(text, s, k) ensures !Occurs(text, e, l) {
          assert i.value <= k;
        }
      }
    }
  }

  lemma NextIsBlock(text: string, s: string, e: string) returns (i: nat, j: nat)
    requires s != "" && CountBlocks(text, s, e, 0) == 1
    ensures NextBlock(text, s, e, 0) == Some(Span(i, j)) && OnlyBlock(text, s, e, i, j)
  {
    i, j := CountedOnce(text, s, e);
    LastIsOnly(text, s, e, i, j);
  }

  lemma CountedOnce(text: string, s: string, e: string) returns (i: nat, j: nat)
    requires s != "" && CountBlocks(text, s, e, 0) == 1
    ensures NextBlock(text, s, e, 0) == Some(Span(i, j)) && NextBlock(text, s, e, j + |e|).None?
  {
    var b := NextBlock(text, s, e, 0).value;
    i, j := b.start, b.end;
  }

  lemma LastIsOnly(text: string, s: string, e: string, i: nat, j: nat)
    requires NextBlock(text, s, e, 0) == Some(Span(i, j)) && NextBlock(text, s, e, j + |e|).None?
    ensures OnlyBlock(text, s, e, i, j)
  {
    FoundIsFirst(text, s, 0, i);
    FoundIsFirst(text, e, i + |s|, j);
    NoBlockIff(text, s, e, j + |e|);
  }

  lemma FoundIsFirst(text: string, pattern: string, from: nat, i: nat)
    requires Find(text, pattern, from) == Some(i)
    ensures FirstAt(text, pattern, from, i)
  {
    FindIsFirst(text, pattern, from);
  }

  lemma BlockIsNext(text: string, s: string, e: string, i: nat, j: nat)
    requires s != "" && OnlyBlock(text, s, e, i, j)
    ensures NextBlock(text, s, e, 0) == Some(Span(i, j)) && CountBlocks(text, s, e, 0) == 1
  {
    FirstIsFound(text, s, 0, i);
    FirstIsFound(text, e, i + |s|, j);
    NoBlockIff(text, s, e, j + |e|);
    OneBlock(text, s, e, i, j);
  }

  lemma OneBlock(text: string, s: string, e: string, i: nat, j: nat)
    requires s != "" && NextBlock(text, s, e, 0) == Some(Span(i, j)) && NextBlock(text, s, e, j + |e|).None?
    ensures CountBlocks(text, s, e, 0) == 1
  {
    assert CountBlocks(text, s, e, j + |e|) == 0;
  }

  // ---- What the template makes of the body ---------------------------------

  predicate OneLine(s: string) { s != "" && forall k :: 0 <= k < |s| ==> s[k] != '\n' }

  /** A marker is one line without backslashes. */
  predicate Marker(s: string) { OneLine(s) && Templates.Backslashes(s) == 0 }

  /** `re` accepts the body. A backslash ending it escapes the newline after it, which is harmless. */
  predicate Accepted(body: string) { Templates.WellFormed(body + "\n") }

  /** The body stands for itself: no backslash in it comes before a letter, a digit or another backslash. */
  predicate Literal(body: string) { Templates.Plain(body + "\n") }

  /** When each outcome happens. */
  lemma {:induction false} ReplaceIff(text: string, s: string, e: string, body: string)
    requires Marker(s) && Marker(e)
    ensures var outcome := ReplaceBetween(text, s, e, body);
            && (outcome.BadTemplate? <==> !Accepted(body))
            && (outcome.Done? <==> Accepted(body) && exists i: nat, j: nat :: OnlyBlock(text, s, e, i, j))
  {
    Templates.Around(s, body, e, "");
    if CountBlocks(text, s, e, 0) == 1 { var _, _ := NextIsBlock(text, s, e); }
    if i: nat, j: nat :| OnlyBlock(text, s, e, i, j) { BlockIsNext(text, s, e, i, j); }
  }

  /** A done rewrite puts the expanded body between the markers and keeps every character outside the block. */
  lemma {:induction false} ReplaceExpands(text: string, s: string, e: string, i: nat, j: nat, body: string)
    requires Marker(s) && Marker(e) && Accepted(body) && OnlyBlock(text, s, e, i, j)
    ensures ReplaceBetween(text, s, e, body) ==
            Done(text[..i] + (s + "\n" + Templates.Expand(body + "\n", text[i..j + |e|]).value + e) + text[j + |e|..])
  {
    Templates.Around(s, body, e, text[i..j + |e|]);
    BlockIsNext(text, s, e, i, j);
    ReplaceNext(text, s, e, i, j, body);
  }

  lemma ReplaceNext(text: string, s: string, e: string, i: nat, j: nat, body: string)
    requires s != "" && Templates.WellFormed(Template(s, e, body))
    requires NextBlock(text, s, e, 0) == Some(Span(i, j)) && CountBlocks(text, s, e, 0) == 1
    ensures ReplaceBetween(text, s, e, body) ==
            Done(text[..i] + Templates.Expand(Template(s, e, body), text[i..j + |e|]).value + text[j + |e|..])
  {
  }

  lemma ReplaceBlock(text: string, s: string, e: string, i: nat, j: nat, body: string)
    requires Marker(s) && Marker(e) && Literal(body) && OnlyBlock(text, s, e, i, j)
    ensures ReplaceBetween(text, s, e, body) == Done(Splice(text, s, e, i, j, body))
  {
    Templates.PlainIsVerbatim(body + "\n", text[i..j + |e|]);
    ReplaceExpands(text, s, e, i, j, body);
    SplicePieces(text[..i], s, body, e, text[j + |e|..]);
  }

  lemma SplicePieces(before: string, s: string, body: string, e: string, after: string)
    ensures before + (s + "\n" + (body + "\n") + e) + after == before + s + "\n" + body + "\n" + e + after
  {
  }

  /** A body goes in as it is exactly when it is its own expansion. */
  lemma VerbatimMeans(text: string, s: string, e: string, i: nat, j: nat, body: string)
    requires Marker(s) && Marker(e) && OnlyBlock(text, s, e, i, j)
    ensures ReplaceBetween(text, s, e, body) == Done(Splice(text, s, e, i, j, body)) <==>
            Templates.Expand(body + "\n", text[i..j + |e|]) == Some(body + "\n")
  {
    ReplaceIff(text, s, e, body);
    if Accepted(body) {
      var put := Templates.Expand(body + "\n", text[i..j + |e|]).value;
      ReplaceExpands(text, s, e, i, j, body);
      SplicePieces(text[..i], s, body, e, text[j + |e|..]);
      if put != body + "\n" { DifferentMiddles(text[..i], s, put, body + "\n", e, text[j + |e|..]); }
    }
  }

  lemma PrefixOccurs(text: string, whole: string, pattern: string, k: nat)
    requires |pattern| <= |whole| && whole[..|pattern|] == pattern
    ensures Occurs(text, whole, k) ==> Occurs(text, pattern, k)
  {
    if Occurs(text, whole, k) {
      assert text[k..k + |pattern|] == text[k..k + |whole|][..|pattern|];
    }
  }

  lemma NewlineAddsNone(body: string, pattern: string, k: nat)
    requires OneLine(pattern)
    ensures Occurs(body + "\n", pattern, k) ==> k <= |body| && Occurs(body, pattern, k)
  {
    var t := body + "\n";
    if Occurs(t, pattern, k) {
      NeverAcrossNewline(t, pattern, k, |body|);
      assert t[k..k + |pattern|] == body[k..k + |pattern|];
    }
  }

  /** A body free of the start marker does not contain the block, not even with the newline after it. */
  lemma BlockNotInside(s: string, whole: string, body: string, k: nat)
    requires OneLine(s) && FreeOf(body, s) && |s| <= |whole| && whole[..|s|] == s
    ensures !Occurs(body + "\n", whole, k)
  {
    PrefixOccurs(body + "\n", whole, s, k);
    NewlineAddsNone(body, s, k);
  }

  /** So if it is its own expansion it is literal. */
  lemma ItselfIsLiteral(s: string, whole: string, body: string)
    requires OneLine(s) && FreeOf(body, s) && |s| <= |whole| && whole[..|s|] == s
    requires Templates.Expand(body + "\n", whole) == Some(body + "\n")
    ensures Literal(body)
  {
    if !Literal(body) {
      var k := Templates.VerbatimContains(body + "\n", whole);
      BlockNotInside(s, whole, body, k);
    }
  }

  /** Which bodies go in as they are: of those free of the start marker exactly the literal ones, over any block. */
  lemma {:induction false} VerbatimIff(text: string, s: string, e: string, i: nat, j: nat, body: string)
    requires Marker(s) && Marker(e) && OnlyBlock(text, s, e, i, j) && FreeOf(body, s)
    ensures ReplaceBetween(text, s, e, body) == Done(Splice(text, s, e, i, j, body)) <==> Literal(body)
  {
    var t, whole := body + "\n", text[i..j + |e|];
    VerbatimMeans(text, s, e, i, j, body);
    if Literal(body) {
      Templates.PlainIsVerbatim(t, whole);
    } else if Templates.Expand(t, whole) == Some(t) {
      assert whole[..|s|] == text[i..i + |s|];
      ItselfIsLiteral(s, whole, body);
    }
  }

  /** Over a block without backslashes no other body does, with a start marker in it or not. */
  lemma {:induction false} VerbatimOverPlainBlock(text: string, s: string, e: string, i: nat, j: nat, body: string)
    requires Marker(s) && Marker(e) && OnlyBlock(text, s, e, i, j) && Templates.Backslashes(text[i..j + |e|]) == 0
    ensures ReplaceBetween(text, s, e, body) == Done(Splice(text, s, e, i, j, body)) <==> Literal(body)
  {
    VerbatimMeans(text, s, e, i, j, body);
    Templates.VerbatimIff(body + "\n", text[i..j + |e|]);
  }

  lemma DifferentMiddles(before: string, s: string, put: string, body: string, e: string, after: string)
    requires put != body
    ensures before + (s + "\n" + put + e) + after != before + (s + "\n" + body + e) + after
  {
    var x, y := before + (s + "\n" + put + e) + after, before + (s + "\n" + body + e) + after;
    if |put| == |body| {
      assert x[|before| + |s| + 1..][..|put|] == put;
      assert y[|before| + |s| + 1..][..|put|] == body;
    } else {
      assert |x| != |y|;
    }
  }

  /** A note with an unknown escape makes every rewrite fail, and one with a known escape loses its backslash. */
  lemma {:induction false} BackslashBodies(text: string, s: string, e: string)
    requires Marker(s) && Marker(e)
    ensures ReplaceBetween(text, s, e, "a\\qb") == BadTemplate
    ensures forall i: nat, j: nat :: OnlyBlock(text, s, e, i, j) ==>
              ReplaceBetween(text, s, e, "a\\tb") == Done(Splice(text, s, e, i, j, "a\tb"))
  {
    BadEscape();
    TabEscape("");
    ReplaceIff(text, s, e, "a\\qb");
    forall i: nat, j: nat | OnlyBlock(text, s, e, i, j)
      ensures ReplaceBetween(text, s, e, "a\\tb") == Done(Splice(text, s, e, i, j, "a\tb"))
    {
      TabEscape(text[i..j + |e|]);
      ReplaceExpands(text, s, e, i, j, "a\\tb");
      SplicePieces(text[..i], s, "a\tb", e, text[j + |e|..]);
    }
  }

  lemma BadEscape()
    ensures !Accepted("a\\qb")
  {
    var t := "a\\qb" + "\n";
    assert t == "a" + "\\qb\n";
    assert t[1..] == "\\qb\n";
    assert Templates.First("\\qb\n").Bad?;
    assert !Templates.WellFormed("\\qb\n");
    assert Templates.First(t) == Templates.Kept(1);
  }

  lemma TabEscape(whole: string)
    ensures Accepted("a\\tb") && Templates.Expand("a\\tb" + "\n", whole) == Some("a\tb" + "\n")
  {
    var t, u, rest := "a\\tb" + "\n", "\\tb\n", "b\n";
    assert Templates.Backslashes(rest) == 0 by { assert rest[1..] == "\n" && rest[1..][1..] == ""; }
    Templates.LiteralIsPlain(rest);
    Templates.PlainIsVerbatim(rest, whole);
    assert u[2..] == rest && Templates.First(u) == Templates.Char('\t', 2);
    assert Templates.Expand(u, whole) == Some(['\t'] + rest);
    assert t[1..] == u && Templates.First(t) == Templates.Kept(1);
    assert t[..1] + (['\t'] + rest) == "a\tb" + "\n";
  }

  // ---- Occurrences around a replaced middle --------------------------------

  predicate FreeOf(body: string, pattern: string) { forall k: nat :: k <= |body| ==> !Occurs(body, pattern, k) }

  function Padded(body: string): string { "\n" + body + "\n" }

  lemma HeadOccurs(x: string, mid: string, y: string, pattern: string, k: nat)
    requires k + |pattern| <= |x|
    ensures Occurs(x + mid + y, pattern, k) <==> Occurs(x, pattern, k)
  {
    assert (x + mid + y)[k..k + |pattern|] == x[k..k + |pattern|];
  }

  lemma TailOccurs(x: string, mid: string, y: string, pattern: string, k: nat)
    ensures Occurs(x + mid + y, pattern, |x| + |mid| + k) <==> Occurs(y, pattern, k)
  {
    if k + |pattern| <= |y| {
      assert (x + mid + y)[|x| + |mid| + k..|x| + |mid| + k + |pattern|] == y[k..k + |pattern|];
    }
  }

  /** An occurrence after the middle is there whatever the middle is. */
  lemma Moved(x: string, mid: string, mid': string, y: string, pattern: string, k: nat)
    ensures Occurs(x + mid' + y, pattern, |x| + |mid'| + k) <==> Occurs(x + mid + y, pattern, |x| + |mid| + k)
  {
    TailOccurs(x, mid, y, pattern, k);
    TailOccurs(x, mid', y, pattern, k);
  }

  /** So with no block from some point of the tail on, there is none from there on whatever the middle is. */
  lemma NoLaterBlock(x: string, mid: string, mid': string, y: string, s: string, e: string, q: nat)
    requires NoBlock(x + mid + y, s, e, |x| + |mid| + q)
    ensures NoBlock(x + mid' + y, s, e, |x| + |mid'| + q)
  {
    forall k: nat, l: nat | |x| + |mid'| + q <= k && k + |s| <= l && Occurs(x + mid' + y, s, k)
      ensures !Occurs(x + mid' + y, e, l)
    {
      Moved(x, mid, mid', y, s, k - |x| - |mid'|);
      Moved(x, mid, mid', y, e, l - |x| - |mid'|);
      assert Occurs(x + mid + y, s, k - |mid'| + |mid|);
    }
  }

  lemma NeverAcrossNewline(text: string, pattern: string, k: nat, p: nat)
    requires OneLine(pattern) && Occurs(text, pattern, k) && p < |text| && text[p] == '\n'
    ensures p < k || k + |pattern| <= p
  {
  }

  lemma BodyOccurs(x: string, body: string, y: string, pattern: string, k: nat)
    requires |x| < k && k + |pattern| < |x| + |Padded(body)|
    ensures Occurs(x + Padded(body) + y, pattern, k) <==> Occurs(body, pattern, k - |x| - 1)
  {
    assert (x + Padded(body) + y)[k..k + |pattern|] == body[k - |x| - 1..k - |x| - 1 + |pattern|];
  }

  /** A one-line pattern not in the body occurs nowhere between the markers, nor across them. */
  lemma NoneBetween(x: string, body: string, y: string, pattern: string, k: nat)
    requires OneLine(pattern) && FreeOf(body, pattern)
    requires Occurs(x + Padded(body) + y, pattern, k)
    ensures k + |pattern| <= |x| || k >= |x| + |Padded(body)|
  {
    var text, mid := x + Padded(body) + y, Padded(body);
    NeverAcrossNewline(text, pattern, k, |x|);
    NeverAcrossNewline(text, pattern, k, |x| + |mid| - 1);
    if |x| < k && k + |pattern| < |x| + |mid| { BodyOccurs(x, body, y, pattern, k); }
  }

  // ---- What a rewrite does -------------------------------------------------

  /** Up to and including the start marker, between the markers, from the end marker on. */
  function Before(text: string, s: string, i: nat): string
    requires i + |s| <= |text|
  {
    text[..i + |s|]
  }

  function Between(text: string, s: string, i: nat, j: nat): string
    requires i + |s| <= j <= |text|
  {
    text[i + |s|..j]
  }

  function After(text: string, j: nat): string
    requires j <= |text|
  {
    text[j..]
  }

  lemma Splits(text: string, s: string, e: string, i: nat, j: nat, body: string)
    requires OnlyBlock(text, s, e, i, j)
    ensures text == Before(text, s, i) + Between(text, s, i, j) + After(text, j)
    ensures Splice(text, s, e, i, j, body) == Before(text, s, i) + Padded(body) + After(text, j)
  {
    assert Before(text, s, i) == text[..i] + s;
    assert After(text, j) == e + text[j + |e|..];
    assert Splice(text, s, e, i, j, body) == (text[..i] + s) + ("\n" + body + "\n") + (e + text[j + |e|..]);
  }

  /** The rewritten text has its only block in the same place, ending right after the new body. */
  lemma SpliceKeepsBlock(text: string, s: string, e: string, i: nat, j: nat, body: string)
    requires OneLine(s) && OneLine(e) && FreeOf(body, s) && FreeOf(body, e)
    requires OnlyBlock(text, s, e, i, j)
    ensures OnlyBlock(Splice(text, s, e, i, j, body), s, e, i, i + |s| + |Padded(body)|)
  {
    Splits(text, s, e, i, j, body);
    var x, y, mid, mid' := Before(text, s, i), After(text, j), Between(text, s, i, j), Padded(body);
    var text', j' := Splice(text, s, e, i, j, body), i + |s| + |mid'|;
    HeadOccurs(x, mid, y, s, i);
    HeadOccurs(x, mid', y, s, i);
    TailOccurs(x, mid, y, e, 0);
    TailOccurs(x, mid', y, e, 0);
    forall k: nat | k < i ensures !Occurs(text', s, k) {
      HeadOccurs(x, mid, y, s, k);
      HeadOccurs(x, mid', y, s, k);
    }
    forall k: nat | i + |s| <= k < j' ensures !Occurs(text', e, k) {
      if Occurs(text', e, k) { NoneBetween(x, body, y, e, k); }
    }
    NoLaterBlock(x, mid, mid', y, s, e, |e|);
  }

  /** What comes back out from between the markers of the one block. */
  function Extract(text: string, s: string, e: string): Option<string> {
    var b := NextBlock(text, s, e, 0);
    if b.None? then None else Some(text[b.value.start + |s|..b.value.end])
  }

  /**
   * A successful rewrite keeps every character outside the block, reads back as the body between newlines, and leaves
   * exactly one block.
   */
  lemma {:induction false} RewriteWrites(text: string, s: string, e: string, i: nat, j: nat, body: string)
    requires Marker(s) && Marker(e) && Literal(body) && FreeOf(body, s) && FreeOf(body, e)
    requires OnlyBlock(text, s, e, i, j)
    ensures ReplaceBetween(text, s, e, body).Done?
    ensures var text' := ReplaceBetween(text, s, e, body).text;
            && text' == text[..i] + s + "\n" + body + "\n" + e + text[j + |e|..]
            && Extract(text', s, e) == Some("\n" + body + "\n")
            && CountBlocks(text', s, e, 0) == 1
  {
    ReplaceBlock(text, s, e, i, j, body);
    SpliceReads(text, s, e, i, j, body);
  }

  lemma SpliceReads(text: string, s: string, e: string, i: nat, j: nat, body: string)
    requires OneLine(s) && OneLine(e) && FreeOf(body, s) && FreeOf(body, e)
    requires OnlyBlock(text, s, e, i, j)
    ensures var u := Splice(text, s, e, i, j, body);
            Extract(u, s, e) == Some(Padded(body)) && CountBlocks(u, s, e, 0) == 1
  {
    SpliceKeepsBlock(text, s, e, i, j, body);
    BlockIsNext(Splice(text, s, e, i, j, body), s, e, i, i + |s| + |Padded(body)|);
    SpliceMiddle(text[..i], s, body, e, text[j + |e|..]);
  }

  lemma SpliceMiddle(before: string, s: string, body: string, e: string, after: string)
    ensures var u := before + s + "\n" + body + "\n" + e + after;
            u[|before| + |s|..|before| + |s| + |Padded(body)|] == Padded(body)
  {
  }

  lemma SpliceTwice(text: string, s: string, e: string, i: nat, j: nat, first: string, body: string)
    requires i + |s| <= j && j + |e| <= |text|
    ensures Splice(Splice(text, s, e, i, j, first), s, e, i, i + |s| + |Padded(first)|, body) ==
            Splice(text, s, e, i, j, body)
  {
    var text', j' := Splice(text, s, e, i, j, first), i + |s| + |Padded(first)|;
    assert text'[..i] == text[..i];
    assert text'[j' + |e|..] == text[j + |e|..];
  }

  /** The last rewrite wins, whatever was written before; so rewriting twice with the same body changes nothing more. */
  lemma {:induction false} LastRewriteWins(text: string, s: string, e: string, first: string, body: string)
    requires Marker(s) && Marker(e) && FreeOf(first, s) && FreeOf(first, e) && Literal(first) && Literal(body)
    requires ReplaceBetween(text, s, e, first).Done?
    ensures ReplaceBetween(ReplaceBetween(text, s, e, first).text, s, e, body) == ReplaceBetween(text, s, e, body)
  {
    ReplaceIff(text, s, e, first);
    var i: nat, j: nat :| OnlyBlock(text, s, e, i, j);
    ReplaceBlock(text, s, e, i, j, first);
    ReplaceBlock(text, s, e, i, j, body);
    SpliceKeepsBlock(text, s, e, i, j, first);
    ReplaceBlock(Splice(text, s, e, i, j, first), s, e, i, i + |s| + |Padded(first)|, body);
    SpliceTwice(text, s, e, i, j, first, body);
  }

  // ---- Two sections --------------------------------------------------------

  /** Rewriting an earlier block moves a later one, markers and all, by the difference in length. */
  lemma LaterBlockMoves(text: string, s1: string, e1: string, i1: nat, j1: nat, body: string,
                        s2: string, e2: string, i2: nat, j2: nat)
    requires OneLine(s2) && OneLine(e2) && FreeOf(body, s2) && FreeOf(body, e2)
    requires OnlyBlock(text, s1, e1, i1, j1) && OnlyBlock(text, s2, e2, i2, j2) && j1 + |e1| <= i2
    ensures var to := i1 + |s1| + |Padded(body)|;
            OnlyBlock(Splice(text, s1, e1, i1, j1, body), s2, e2, i2 - j1 + to, j2 - j1 + to)
  {
    Splits(text, s1, e1, i1, j1, body);
    TailBlockMoves(Before(text, s1, i1), Between(text, s1, i1, j1), body, After(text, j1), s2, e2, i2, j2);
  }

  lemma TailBlockMoves(x: string, mid: string, body: string, y: string, s: string, e: string, i: nat, j: nat)
    requires OneLine(s) && OneLine(e) && FreeOf(body, s) && FreeOf(body, e)
    requires OnlyBlock(x + mid + y, s, e, i, j) && |x| + |mid| <= i
    ensures OnlyBlock(x + Padded(body) + y, s, e, i - |mid| + |Padded(body)|, j - |mid| + |Padded(body)|)
  {
    var mid', from, to := Padded(body), |x| + |mid|, |x| + |Padded(body)|;
    var text, text' := x + mid + y, x + mid' + y;
    Moved(x, mid, mid', y, s, i - from);
    Moved(x, mid, mid', y, e, j - from);
    forall k: nat | k < i - from + to ensures !Occurs(text', s, k) {
      if Occurs(text', s, k) { NotEarlier(x, mid, body, y, s, k, i); }
    }
    forall k: nat | i - from + to + |s| <= k < j - from + to ensures !Occurs(text', e, k) {
      Moved(x, mid, mid', y, e, k - to);
    }
    NoLaterBlock(x, mid, mid', y, s, e, j - from + |e|);
  }

  /** An occurrence in the rewritten text was in the old one too, no further right relative to the tail. */
  lemma NotEarlier(x: string, mid: string, body: string, y: string, pattern: string, k: nat, first: nat)
    requires OneLine(pattern) && FreeOf(body, pattern) && Occurs(x + Padded(body) + y, pattern, k)
    requires forall n: nat :: n < first ==> !Occurs(x + mid + y, pattern, n)
    requires first >= |x| + |mid|
    ensures k >= first - |mid| + |Padded(body)|
  {
    NoneBetween(x, body, y, pattern, k);
    if k + |pattern| <= |x| {
      HeadOccurs(x, Padded(body), y, pattern, k);
      HeadOccurs(x, mid, y, pattern, k);
    } else {
      Moved(x, mid, Padded(body), y, pattern, k - |x| - |Padded(body)|);
    }
  }

  /** Rewriting a later block leaves an earlier one where it is. */
  lemma EarlierBlockStays(text: string, s1: string, e1: string, i1: nat, j1: nat,
                          s2: string, e2: string, i2: nat, j2: nat, body: string)
    requires OneLine(s1) && OneLine(e1) && FreeOf(body, s1) && FreeOf(body, e1)
    requires OnlyBlock(text, s1, e1, i1, j1) && OnlyBlock(text, s2, e2, i2, j2) && j1 + |e1| <= i2
    ensures OnlyBlock(Splice(text, s2, e2, i2, j2, body), s1, e1, i1, j1)
  {
    Splits(text, s2, e2, i2, j2, body);
    var x, y, mid, mid' := Before(text, s2, i2), After(text, j2), Between(text, s2, i2, j2), Padded(body);
    var text' := Splice(text, s2, e2, i2, j2, body);
    forall k: nat | k <= i1 ensures Occurs(text', s1, k) <==> Occurs(text, s1, k) {
      HeadOccurs(x, mid, y, s1, k);
      HeadOccurs(x, mid', y, s1, k);
    }
    forall k: nat | k <= j1 ensures Occurs(text', e1, k) <==> Occurs(text, e1, k) {
      HeadOccurs(x, mid, y, e1, k);
      HeadOccurs(x, mid', y, e1, k);
    }
    forall k: nat, l: nat | j1 + |e1| <= k && k + |s1| <= l && Occurs(text', s1, k) ensures !Occurs(text', e1, l) {
      if Occurs(text', e1, l) {
        var k' := Origin(x, mid, body, y, s1, k);
        var l' := Origin(x, mid, body, y, e1, l);
      }
    }
  }

  /** Where an occurrence in the rewritten text was in the old one. */
  lemma Origin(x: string, mid: string, body: string, y: string, pattern: string, k: nat) returns (k': nat)
    requires OneLine(pattern) && FreeOf(body, pattern) && Occurs(x + Padded(body) + y, pattern, k)
    ensures Occurs(x + mid + y, pattern, k')
    ensures if k + |pattern| <= |x| then k' == k else k >= |x| + |Padded(body)| && k' == k - |Padded(body)| + |mid|
  {
    NoneBetween(x, body, y, pattern, k);
    if k + |pattern| <= |x| {
      HeadOccurs(x, Padded(body), y, pattern, k);
      HeadOccurs(x, mid, y, pattern, k);
      k' := k;
    } else {
      Moved(x, mid, Padded(body), y, pattern, k - |x| - |Padded(body)|);
      k' := k - |Padded(body)| + |mid|;
    }
  }

  /** Both sections rewritten. */
  function Both(text: string, s1: string, e1: string, i1: nat, j1: nat, b1: string,
                s2: string, e2: string, i2: nat, j2: nat, b2: string): string
    requires i1 <= |text| && j1 + |e1| <= i2 <= |text| && j2 + |e2| <= |text|
  {
    text[..i1] + s1 + "\n" + b1 + "\n" + e1 + text[j1 + |e1|..i2] + s2 + "\n" + b2 + "\n" + e2 + text[j2 + |e2|..]
  }

  lemma SpliceSecond(text: string, s1: string, e1: string, i1: nat, j1: nat, b1: string,
                     s2: string, e2: string, i2: nat, j2: nat, b2: string, to: nat)
    requires i1 + |s1| <= j1 && j1 + |e1| <= i2 && i2 + |s2| <= j2 && j2 + |e2| <= |text|
    requires to == i1 + |s1| + |b1| + 2
    ensures Splice(Splice(text, s1, e1, i1, j1, b1), s2, e2, i2 - j1 + to, j2 - j1 + to, b2) ==
            Both(text, s1, e1, i1, j1, b1, s2, e2, i2, j2, b2)
  {
    var one := Splice(text, s1, e1, i1, j1, b1);
    assert one[..i2 - j1 + to] == text[..i1] + s1 + "\n" + b1 + "\n" + e1 + text[j1 + |e1|..i2];
    assert one[j2 - j1 + to + |e2|..] == text[j2 + |e2|..];
  }

  lemma SpliceFirst(text: string, s1: string, e1: string, i1: nat, j1: nat, b1: string,
                    s2: string, e2: string, i2: nat, j2: nat, b2: string)
    requires i1 + |s1| <= j1 && j1 + |e1| <= i2 && i2 + |s2| <= j2 && j2 + |e2| <= |text|
    ensures Splice(Splice(text, s2, e2, i2, j2, b2), s1, e1, i1, j1, b1) ==
            Both(text, s1, e1, i1, j1, b1, s2, e2, i2, j2, b2)
  {
    var two := Splice(text, s2, e2, i2, j2, b2);
    assert two[..i1] == text[..i1];
    assert two[j1 + |e1|..] == text[j1 + |e1|..i2] + s2 + "\n" + b2 + "\n" + e2 + text[j2 + |e2|..];
  }

  /** Where the later block is once the earlier one is rewritten. */
  lemma SecondAfterFirst(text: string, s1: string, e1: string, i1: nat, j1: nat, b1: string,
                         s2: string, e2: string, i2: nat, j2: nat, b2: string) returns (k: nat, l: nat)
    requires OneLine(s2) && OneLine(e2) && FreeOf(b1, s2) && FreeOf(b1, e2)
    requires OnlyBlock(text, s1, e1, i1, j1) && OnlyBlock(text, s2, e2, i2, j2) && j1 + |e1| <= i2
    ensures k == i2 - j1 + i1 + |s1| + |Padded(b1)| && OnlyBlock(Splice(text, s1, e1, i1, j1, b1), s2, e2, k, l)
    ensures Splice(Splice(text, s1, e1, i1, j1, b1), s2, e2, k, l, b2) ==
            Both(text, s1, e1, i1, j1, b1, s2, e2, i2, j2, b2)
  {
    var to := i1 + |s1| + |Padded(b1)|;
    k, l := i2 - j1 + to, j2 - j1 + to;
    LaterBlockMoves(text, s1, e1, i1, j1, b1, s2, e2, i2, j2);
    SpliceSecond(text, s1, e1, i1, j1, b1, s2, e2, i2, j2, b2, to);
  }

  /** Either order of rewriting two sections, the first of them earlier in the text, gives both rewritten. */
  lemma FirstThenSecond(text: string, s1: string, e1: string, i1: nat, j1: nat, b1: string,
                        s2: string, e2: string, i2: nat, j2: nat, b2: string)
    requires Marker(s1) && Marker(e1) && Marker(s2) && Marker(e2) && Literal(b1) && Literal(b2)
    requires FreeOf(b1, s2) && FreeOf(b1, e2)
    requires OnlyBlock(text, s1, e1, i1, j1) && OnlyBlock(text, s2, e2, i2, j2) && j1 + |e1| <= i2
    ensures Render(text, s1, e1, b1, s2, e2, b2) == Done(Both(text, s1, e1, i1, j1, b1, s2, e2, i2, j2, b2))
  {
    var k, l := SecondAfterFirst(text, s1, e1, i1, j1, b1, s2, e2, i2, j2, b2);
    RenderSplices(text, s1, e1, i1, j1, b1, s2, e2, k, l, b2);
  }

  lemma SecondThenFirst(text: string, s1: string, e1: string, i1: nat, j1: nat, b1: string,
                        s2: string, e2: string, i2: nat, j2: nat, b2: string)
    requires Marker(s1) && Marker(e1) && Marker(s2) && Marker(e2) && Literal(b1) && Literal(b2)
    requires FreeOf(b2, s1) && FreeOf(b2, e1)
    requires OnlyBlock(text, s1, e1, i1, j1) && OnlyBlock(text, s2, e2, i2, j2) && j1 + |e1| <= i2
    ensures Render(text, s2, e2, b2, s1, e1, b1) == Done(Both(text, s1, e1, i1, j1, b1, s2, e2, i2, j2, b2))
  {
    EarlierBlockStays(text, s1, e1, i1, j1, s2, e2, i2, j2, b2);
    RenderSplices(text, s2, e2, i2, j2, b2, s1, e1, i1, j1, b1);
    SpliceFirst(text, s1, e1, i1, j1, b1, s2, e2, i2, j2, b2);
  }

  /** `render`: one section, then the other. */
  function Render(text: string, s1: string, e1: string, b1: string, s2: string, e2: string, b2: string): Outcome
    requires s1 != "" && s2 != ""
  {
    var once := ReplaceBetween(text, s1, e1, b1);
    if !once.Done? then once else ReplaceBetween(once.text, s2, e2, b2)
  }

  lemma RenderSplices(text: string, s1: string, e1: string, i1: nat, j1: nat, b1: string,
                      s2: string, e2: string, i2: nat, j2: nat, b2: string)
    requires Marker(s1) && Marker(e1) && Marker(s2) && Marker(e2) && Literal(b1) && Literal(b2)
    requires OnlyBlock(text, s1, e1, i1, j1) && OnlyBlock(Splice(text, s1, e1, i1, j1, b1), s2, e2, i2, j2)
    ensures Render(text, s1, e1, b1, s2, e2, b2) ==
            Done(Splice(Splice(text, s1, e1, i1, j1, b1), s2, e2, i2, j2, b2))
  {
    ReplaceBlock(text, s1, e1, i1, j1, b1);
    ReplaceBlock(Splice(text, s1, e1, i1, j1, b1), s2, e2, i2, j2, b2);
  }

  /** Two blocks with nothing in common. */
  ghost predicate Apart(text: string, s1: string, e1: string, i1: nat, j1: nat,
                        s2: string, e2: string, i2: nat, j2: nat) {
    && OnlyBlock(text, s1, e1, i1, j1) && OnlyBlock(text, s2, e2, i2, j2)
    && (j1 + |e1| <= i2 || j2 + |e2| <= i1)
  }

  predicate FreeOfAll(body: string, s1: string, e1: string, s2: string, e2: string) {
    FreeOf(body, s1) && FreeOf(body, e1) && FreeOf(body, s2) && FreeOf(body, e2)
  }

  /** Two sections marked apart from each other can be rewritten in either order, wherever they stand. */
  lemma {:induction false} RewritesCommute(text: string, s1: string, e1: string, i1: nat, j1: nat, b1: string,
                                           s2: string, e2: string, i2: nat, j2: nat, b2: string)
    requires Marker(s1) && Marker(e1) && Marker(s2) && Marker(e2) && Literal(b1) && Literal(b2)
    requires FreeOf(b1, s2) && FreeOf(b1, e2) && FreeOf(b2, s1) && FreeOf(b2, e1)
    requires Apart(text, s1, e1, i1, j1, s2, e2, i2, j2)
    ensures Render(text, s1, e1, b1, s2, e2, b2) == Render(text, s2, e2, b2, s1, e1, b1)
    ensures Render(text, s1, e1, b1, s2, e2, b2).Done?
  {
    if j1 + |e1| <= i2 {
      FirstThenSecond(text, s1, e1, i1, j1, b1, s2, e2, i2, j2, b2);
      SecondThenFirst(text, s1, e1, i1, j1, b1, s2, e2, i2, j2, b2);
    } else {
      FirstThenSecond(text, s2, e2, i2, j2, b2, s1, e1, i1, j1, b1);
      SecondThenFirst(text, s2, e2, i2, j2, b2, s1, e1, i1, j1, b1);
    }
  }

  /** Both blocks of a text with both sections rewritten. */
  lemma BlocksOfBoth(text: string, s1: string, e1: string, i1: nat, j1: nat, b1: string,
                     s2: string, e2: string, i2: nat, j2: nat, b2: string) returns (k1: nat, k2: nat, l2: nat)
    requires OneLine(s1) && OneLine(e1) && OneLine(s2) && OneLine(e2)
    requires FreeOfAll(b1, s1, e1, s2, e2) && FreeOfAll(b2, s1, e1, s2, e2)
    requires OnlyBlock(text, s1, e1, i1, j1) && OnlyBlock(text, s2, e2, i2, j2) && j1 + |e1| <= i2
    ensures k1 == i1 + |s1| + |Padded(b1)| && k2 == i2 - j1 + k1 && l2 == k2 + |s2| + |Padded(b2)|
    ensures OnlyBlock(Both(text, s1, e1, i1, j1, b1, s2, e2, i2, j2, b2), s1, e1, i1, k1)
    ensures OnlyBlock(Both(text, s1, e1, i1, j1, b1, s2, e2, i2, j2, b2), s2, e2, k2, l2)
  {
    k1 := i1 + |s1| + |Padded(b1)|;
    k2 := i2 - j1 + k1;
    l2 := k2 + |s2| + |Padded(b2)|;
    FirstOfBoth(text, s1, e1, i1, j1, b1, s2, e2, i2, j2, b2);
    SecondOfBoth(text, s1, e1, i1, j1, b1, s2, e2, i2, j2, b2, k1);
  }

  lemma FirstOfBoth(text: string, s1: string, e1: string, i1: nat, j1: nat, b1: string,
                    s2: string, e2: string, i2: nat, j2: nat, b2: string)
    requires OneLine(s1) && OneLine(e1) && FreeOf(b1, s1) && FreeOf(b1, e1) && FreeOf(b2, s1) && FreeOf(b2, e1)
    requires OnlyBlock(text, s1, e1, i1, j1) && OnlyBlock(text, s2, e2, i2, j2) && j1 + |e1| <= i2
    ensures OnlyBlock(Both(text, s1, e1, i1, j1, b1, s2, e2, i2, j2, b2), s1, e1, i1, i1 + |s1| + |Padded(b1)|)
  {
    EarlierBlockStays(text, s1, e1, i1, j1, s2, e2, i2, j2, b2);
    SpliceKeepsBlock(Splice(text, s2, e2, i2, j2, b2), s1, e1, i1, j1, b1);
    SpliceFirst(text, s1, e1, i1, j1, b1, s2, e2, i2, j2, b2);
  }

  lemma SecondOfBoth(text: string, s1: string, e1: string, i1: nat, j1: nat, b1: string,
                     s2: string, e2: string, i2: nat, j2: nat, b2: string, to: nat)
    requires OneLine(s2) && OneLine(e2) && FreeOf(b1, s2) && FreeOf(b1, e2) && FreeOf(b2, s2) && FreeOf(b2, e2)
    requires OnlyBlock(text, s1, e1, i1, j1) && OnlyBlock(text, s2, e2, i2, j2) && j1 + |e1| <= i2
    requires to == i1 + |s1| + |Padded(b1)|
    ensures OnlyBlock(Both(text, s1, e1, i1, j1, b1, s2, e2, i2, j2, b2), s2, e2,
                      i2 - j1 + to, i2 - j1 + to + |s2| + |Padded(b2)|)
  {
    var k, l := SecondAfterFirst(text, s1, e1, i1, j1, b1, s2, e2, i2, j2, b2);
    SpliceKeepsBlock(Splice(text, s1, e1, i1, j1, b1), s2, e2, k, l, b2);
  }

  /** A text with both sections rewritten is its own rendering. */
  lemma BothStays(text: string, s1: string, e1: string, i1: nat, j1: nat, b1: string,
                  s2: string, e2: string, i2: nat, j2: nat, b2: string)
    requires Marker(s1) && Marker(e1) && Marker(s2) && Marker(e2) && Literal(b1) && Literal(b2)
    requires FreeOfAll(b1, s1, e1, s2, e2) && FreeOfAll(b2, s1, e1, s2, e2)
    requires OnlyBlock(text, s1, e1, i1, j1) && OnlyBlock(text, s2, e2, i2, j2) && j1 + |e1| <= i2
    ensures var u := Both(text, s1, e1, i1, j1, b1, s2, e2, i2, j2, b2);
            Render(u, s1, e1, b1, s2, e2, b2) == Done(u)
  {
    var u := Both(text, s1, e1, i1, j1, b1, s2, e2, i2, j2, b2);
    var k1, k2, l2 := BlocksOfBoth(text, s1, e1, i1, j1, b1, s2, e2, i2, j2, b2);
    FirstThenSecond(u, s1, e1, i1, k1, b1, s2, e2, k2, l2, b2);
    BothAgain(text, s1, e1, i1, j1, b1, s2, e2, i2, j2, b2, k1, k2, l2);
  }

  lemma BothAgain(text: string, s1: string, e1: string, i1: nat, j1: nat, b1: string,
                  s2: string, e2: string, i2: nat, j2: nat, b2: string, k1: nat, k2: nat, l2: nat)
    requires i1 + |s1| <= j1 && j1 + |e1| <= i2 && i2 + |s2| <= j2 && j2 + |e2| <= |text|
    requires k1 == i1 + |s1| + |Padded(b1)| && k2 == i2 - j1 + k1 && l2 == k2 + |s2| + |Padded(b2)|
    ensures var u := Both(text, s1, e1, i1, j1, b1, s2, e2, i2, j2, b2);
            l2 + |e2| <= |u| && Both(u, s1, e1, i1, k1, b1, s2, e2, k2, l2, b2) == u
  {
    var u := Both(text, s1, e1, i1, j1, b1, s2, e2, i2, j2, b2);
    assert u[..i1] == text[..i1];
    assert u[k1 + |e1|..k2] == text[j1 + |e1|..i2];
    assert u[l2 + |e2|..] == text[j2 + |e2|..];
  }

  /** Rendering what was just rendered from the same status changes nothing, wherever the two sections stand. */
  lemma {:induction false} RenderTwice(text: string, s1: string, e1: string, i1: nat, j1: nat, b1: string,
                                       s2: string, e2: string, i2: nat, j2: nat, b2: string)
    requires Marker(s1) && Marker(e1) && Marker(s2) && Marker(e2) && Literal(b1) && Literal(b2)
    requires FreeOfAll(b1, s1, e1, s2, e2) && FreeOfAll(b2, s1, e1, s2, e2)
    requires Apart(text, s1, e1, i1, j1, s2, e2, i2, j2)
    ensures var once := Render(text, s1, e1, b1, s2, e2, b2);
            once.Done? && Render(once.text, s1, e1, b1, s2, e2, b2) == once
  {
    if j1 + |e1| <= i2 {
      FirstThenSecond(text, s1, e1, i1, j1, b1, s2, e2, i2, j2, b2);
      BothStays(text, s1, e1, i1, j1, b1, s2, e2, i2, j2, b2);
    } else {
      SecondThenFirst(text, s2, e2, i2, j2, b2, s1, e1, i1, j1, b1);
      BothStaysReversed(text, s2, e2, i2, j2, b2, s1, e1, i1, j1, b1);
    }
  }

  lemma BothStaysReversed(text: string, s1: string, e1: string, i1: nat, j1: nat, b1: string,
                          s2: string, e2: string, i2: nat, j2: nat, b2: string)
    requires Marker(s1) && Marker(e1) && Marker(s2) && Marker(e2) && Literal(b1) && Literal(b2)
    requires FreeOfAll(b1, s1, e1, s2, e2) && FreeOfAll(b2, s1, e1, s2, e2)
    requires OnlyBlock(text, s1, e1, i1, j1) && OnlyBlock(text, s2, e2, i2, j2) && j1 + |e1| <= i2
    ensures var u := Both(text, s1, e1, i1, j1, b1, s2, e2, i2, j2, b2);
            Render(u, s2, e2, b2, s1, e1, b1) == Done(u)
  {
    var u := Both(text, s1, e1, i1, j1, b1, s2, e2, i2, j2, b2);
    var k1, k2, l2 := BlocksOfBoth(text, s1, e1, i1, j1, b1, s2, e2, i2, j2, b2);
    SecondThenFirst(u, s1, e1, i1, k1, b1, s2, e2, k2, l2, b2);
    BothAgain(text, s1, e1, i1, j1, b1, s2, e2, i2, j2, b2, k1, k2, l2);
  }
}
