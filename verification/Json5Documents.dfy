/** What the stripper of common/json5/json5.go does to commented documents: string literals, plain
    bytes, commas, line comments and block comments, written one after another. */
module Json5Documents {
  import opened Json5
  import opened Panel

  datatype Segment =
    | Literal(body: seq<byte>)  // between its quotes, escapes included
    | Plain(b: byte)
    | Comma
    | Line(body: seq<byte>)     // up to its newline, which is a plain byte
    | Block(body: seq<byte>)    // between its delimiters

  datatype Document = End | Item(head: Segment, tail: Document)

  // ----- characters -----

  /** The byte of a character. Documents are described by characters, not by the bytes the scanner knows. */
  function Byte(c: char): byte
    requires c as int < 256
  {
    c as int as byte
  }

  predicate Newline(b: byte) {
    b == Byte('\n') || b == Byte('\r')
  }

  predicate Whitespace(b: byte) {
    b == Byte(' ') || b == Byte('\t') || b == Byte('\n') || b == Byte('\r')
  }

  predicate ClosingBracket(b: byte) {
    b == Byte('}') || b == Byte(']')
  }

  /** The scanner knows these characters. */
  lemma ScannerKnows(b: byte)
    ensures IsNL(b) <==> Newline(b)
    ensures IsWS(b) <==> Whitespace(b)
    ensures IsCloser(b) <==> ClosingBracket(b)
    ensures QUOTE == Byte('"') && BACKSLASH == Byte('\\') && SLASH == Byte('/') && STAR == Byte('*')
    ensures COMMA == Byte(',') && SPACE == Byte(' ')
  {
  }

  // ----- documents -----

  function Text(g: Segment): (t: seq<byte>)
    ensures t != []
  {
    match g
    case Literal(body) => [Byte('"')] + body + [Byte('"')]
    case Plain(b) => [b]
    case Comma => [Byte(',')]
    case Line(body) => [Byte('/'), Byte('/')] + body
    case Block(body) => [Byte('/'), Byte('*')] + body + [Byte('*'), Byte('/')]
  }

  function Render(d: Document): seq<byte> {
    match d
    case End => []
    case Item(g, rest) => Text(g) + Render(rest)
  }

  /** Backslashes come with the byte they escape, and no other quote ends the literal. */
  predicate LiteralBody(body: seq<byte>, k: nat)
    decreases |body| - k
  {
    if k >= |body| then k == |body|
    else if body[k] == Byte('\\') then LiteralBody(body, k + 2)
    else body[k] != Byte('"') && LiteralBody(body, k + 1)
  }

  ghost predicate SegmentOk(g: Segment) {
    match g
    case Literal(body) => LiteralBody(body, 0)
    case Plain(b) => b != Byte('"') && b != Byte('/') && b != Byte(',')
    case Comma => true
    case Line(body) => forall k :: 0 <= k < |body| ==> !Newline(body[k])
    case Block(body) => forall k :: 0 <= k < |body| - 1 && body[k] == Byte('*') ==> body[k + 1] != Byte('/')
  }

  /** A line comment runs up to a newline or the end of the document. */
  ghost predicate WellFormed(d: Document) {
    match d
    case End => true
    case Item(g, rest) =>
      && SegmentOk(g)
      && (g.Line? ==> rest == End || (rest.head.Plain? && Newline(rest.head.b)))
      && WellFormed(rest)
  }

  /** Whether the next byte that is neither whitespace nor comment is a closing bracket. */
  predicate Closes(d: Document) {
    match d
    case End => false
    case Item(Plain(b), rest) => ClosingBracket(b) || (Whitespace(b) && Closes(rest))
    case Item(Line(_), rest) => Closes(rest)
    case Item(Block(_), rest) => Closes(rest)
    case Item(_, _) => false
  }

  function Spaces(n: nat): seq<byte> {
    seq(n, _ => Byte(' '))
  }

  /** A segment after stripping, given the document behind it. */
  function StrippedText(g: Segment, rest: Document): (t: seq<byte>)
    ensures |t| == |Text(g)|
  {
    match g
    case Comma => if Closes(rest) then [Byte(' ')] else [Byte(',')]
    case Line(_) => Spaces(|Text(g)|)
    case Block(_) => Spaces(|Text(g)|)
    case _ => Text(g)
  }

  /** What stripping is for: comments blank, trailing commas blank, everything else as it was. */
  function Stripped(d: Document): (t: seq<byte>)
    ensures |t| == |Render(d)|
  {
    match d
    case End => []
    case Item(g, rest) => StrippedText(g, rest) + Stripped(rest)
  }

  /** The scanner looks for the end of a block comment behind every star; the byte behind a star that
      ends nothing is passed over and stays in the buffer. */
  ghost predicate StarsAreHarmless(body: seq<byte>) {
    forall k :: 0 <= k < |body| && body[k] == Byte('*') ==> k + 1 < |body| && body[k + 1] == Byte(' ')
  }

  ghost predicate BlocksAreHarmless(d: Document) {
    d.Item? ==> (d.head.Block? ==> StarsAreHarmless(d.head.body)) && BlocksAreHarmless(d.tail)
  }

  // ----- positions -----

  /** From `i` on the buffer reads `t`. */
  ghost predicate Reads(s: seq<byte>, i: nat, t: seq<byte>) {
    i + |t| <= |s| && forall k :: i <= k < i + |t| ==> s[k] == t[k - i]
  }

  /** From `i` to its end the buffer reads the document. */
  ghost predicate At(s: seq<byte>, i: nat, d: Document) {
    i + |Render(d)| == |s| && Reads(s, i, Render(d))
  }

  lemma ReadsBoth(s: seq<byte>, i: nat, a: seq<byte>, b: seq<byte>, t: seq<byte>)
    requires t == a + b
    ensures Reads(s, i, t) <==> Reads(s, i, a) && Reads(s, i + |a|, b)
  {
    if Reads(s, i, t) {
      forall k | i <= k < i + |a| ensures s[k] == a[k - i] {
        assert s[k] == t[k - i];
      }
      forall k | i + |a| <= k < i + |t| ensures s[k] == b[k - (i + |a|)] {
        assert s[k] == t[k - i];
      }
    }
  }

  /** The text of the first segment and the place of the second. */
  lemma AtItem(s: seq<byte>, i: nat, d: Document)
    requires d.Item? && At(s, i, d)
    ensures Reads(s, i, Text(d.head)) && At(s, i + |Text(d.head)|, d.tail)
    ensures s[i] == Text(d.head)[0]
  {
    ReadsBoth(s, i, Text(d.head), Render(d.tail), Render(d));
  }

  /** A result that holds the stripped first segment is right just when the rest of it is right. */
  lemma RightItem(out: seq<byte>, i: nat, d: Document)
    requires d.Item? && Reads(out, i, StrippedText(d.head, d.tail))
    ensures Reads(out, i, Stripped(d)) <==> Reads(out, i + |Text(d.head)|, Stripped(d.tail))
  {
    hide Text;
    hide Reads;
    ReadsBoth(out, i, StrippedText(d.head, d.tail), Stripped(d.tail), Stripped(d));
  }

  /** One wrong byte in the first segment makes the result wrong. */
  lemma WrongItem(out: seq<byte>, i: nat, d: Document, m: nat)
    requires d.Item? && |out| == i + |Render(d)|
    requires i <= m < i + |Text(d.head)| && out[m] != StrippedText(d.head, d.tail)[m - i]
    ensures !Reads(out, i, Stripped(d))
  {
    assert Stripped(d)[m - i] == StrippedText(d.head, d.tail)[m - i];
  }

  /** The document is still there behind a changed part of the buffer. */
  lemma AtKept(s: seq<byte>, s': seq<byte>, i: nat, d: Document)
    requires At(s, i, d) && |s'| == |s| && forall k :: i <= k < |s| ==> s'[k] == s[k]
    ensures At(s', i, d)
  {
  }

  // ----- one segment -----

  lemma {:induction false} LiteralScan(s: seq<byte>, i: nat, body: seq<byte>, k: nat)
    requires LiteralBody(body, k) && Reads(s, i, body + [QUOTE])
    ensures StringAt(s, i + k) == i + |body| + 1
    decreases |body| - k
  {
    var t := body + [QUOTE];
    assert s[i + k] == t[k];
    if k >= |body| {
    } else {
      LiteralScan(s, i, body, if body[k] == BACKSLASH then k + 2 else k + 1);
    }
  }

  lemma LiteralEnd(s: seq<byte>, i: nat, body: seq<byte>)
    requires LiteralBody(body, 0) && Reads(s, i, Text(Literal(body)))
    ensures StringAt(s, i + 1) == i + |Text(Literal(body))|
  {
    assert Text(Literal(body)) == [QUOTE] + (body + [QUOTE]);
    ReadsBoth(s, i, [QUOTE], body + [QUOTE], Text(Literal(body)));
    LiteralScan(s, i + 1, body, 0);
  }

  lemma {:induction false} LineScan(s: seq<byte>, i: nat, end: nat)
    requires i <= end <= |s| && (end == |s| || IsNL(s[end]))
    requires forall k :: i <= k < end ==> !IsNL(s[k])
    ensures LineAt(s, i).i == end
    ensures forall k :: i <= k < end ==> LineAt(s, i).buf[k] == SPACE
    decreases end - i
  {
    if i == end {
    } else {
      LineScan(s[i := SPACE], i + 1, end);
      LineAtBlanks(s[i := SPACE], i + 1);
    }
  }

  /** A line comment as a whole: blank, and the scan stops at the newline. */
  lemma LineComment(s: seq<byte>, i: nat, d: Document)
    requires d.Item? && d.head.Line? && WellFormed(d) && At(s, i, d)
    ensures var c, end := CommentAt(s, i + 1), i + |Text(d.head)|;
            && c.i == end
            && Reads(c.buf, i, Spaces(|Text(d.head)|))
            && Blanked(s, c.buf, i, end)
  {
    AtItem(s, i, d);
    var t, s' := Text(d.head), s[i := SPACE];
    var end := i + |t|;
    assert s[i + 1] == t[1];
    forall k | i + 1 <= k < end ensures !IsNL(s'[k]) {
      assert s[k] == t[k - i];
      if k > i + 1 {
        assert t[k - i] == d.head.body[k - i - 2];
      }
    }
    if d.tail.Item? {
      assert s[end] == Render(d.tail)[0];
    }
    LineScan(s', i + 1, end);
    LineAtBlanks(s', i + 1);
  }

  lemma {:induction false} BlockScan(s: seq<byte>, i: nat, end: nat)
    requires i <= end && end + 1 < |s| && s[end] == STAR && s[end + 1] == SLASH
    requires forall k :: i <= k < end && s[k] == STAR ==> k + 1 < end && s[k + 1] == SPACE
    ensures BlockAt(s, i).i == end + 1
    ensures forall k :: i <= k < end + 2 ==> BlockAt(s, i).buf[k] == SPACE
    decreases end - i
  {
    if i == end {
    } else {
      var n := if s[i] == STAR then 2 else 1;
      BlockScan(s[i := SPACE], i + n, end);
      BlockAtBlanks(s[i := SPACE], i + n);
    }
  }

  /** A star that does not hide a space leaves a byte behind that is no space, where the scan never
      returns to. */
  lemma {:induction false} BlockSlip(s: seq<byte>, i: nat, end: nat, bad: nat) returns (m: nat)
    requires i <= bad < end && end + 1 < |s| && s[end] == STAR && s[end + 1] == SLASH
    requires forall k :: i <= k < end && s[k] == STAR ==> s[k + 1] != SLASH
    requires s[bad] == STAR && !(bad + 1 < end && s[bad + 1] == SPACE)
    ensures i <= m <= end && m < BlockAt(s, i).i
    ensures BlockAt(s, i).buf[m] != SPACE
    decreases end - i
  {
    var s' := s[i := SPACE];
    if s[i] != STAR {
      m := BlockSlip(s', i + 1, end, bad);
    } else if i + 1 < end && s[i + 1] == SPACE {
      m := BlockSlip(s', i + 2, end, bad);
    } else {
      m := i + 1;
      BlockAtBlanks(s', i + 2);
    }
  }

  ghost predicate BlockText(s: seq<byte>, i: nat, body: seq<byte>) {
    Reads(s, i, Text(Block(body)))
  }

  lemma BlockTextIs(s: seq<byte>, i: nat, body: seq<byte>)
    requires BlockText(s, i, body)
    ensures var end := i + 2 + |body|;
            && end + 1 < |s| && s[i] == SLASH && s[i + 1] == STAR && s[end] == STAR && s[end + 1] == SLASH
            && forall k :: i + 2 <= k < end ==> s[k] == body[k - i - 2]
  {
    var t, end := Text(Block(body)), i + 2 + |body|;
    assert s[i] == t[0] && s[i + 1] == t[1] && s[end] == t[end - i] && s[end + 1] == t[end + 1 - i];
    forall k | i + 2 <= k < end ensures s[k] == body[k - i - 2] {
      assert s[k] == t[k - i];
    }
  }

  function Opened(s: seq<byte>, i: nat): seq<byte>
    requires i + 1 < |s|
  {
    s[i := SPACE][i + 1 := SPACE]
  }

  lemma BlockOpens(s: seq<byte>, i: nat)
    requires i + 1 < |s| && s[i] == SLASH && s[i + 1] == STAR
    ensures CommentAt(s, i + 1) == BlockAt(Opened(s, i), i + 2)
    ensures |Opened(s, i)| == |s| && forall x :: i + 2 <= x < |s| ==> Opened(s, i)[x] == s[x]
  {
    var s' := Opened(s, i);
    assert s'[i + 1 := SPACE] == s';
  }

  /** A harmless block comment as a whole: blank, and the scan stops on what was its last byte. */
  lemma BlockComment(s: seq<byte>, i: nat, body: seq<byte>)
    requires BlockText(s, i, body) && StarsAreHarmless(body)
    ensures var c, n := CommentAt(s, i + 1), |Text(Block(body))|;
            && c.i == i + n - 1
            && Reads(c.buf, i, Spaces(n))
            && Blanked(s, c.buf, i, i + n)
  {
    BlockTextIs(s, i, body);
    BlockOpens(s, i);
    BlockScan(Opened(s, i), i + 2, i + 2 + |body|);
    BlockAtBlanks(Opened(s, i), i + 2);
  }

  lemma SlipIn(s: seq<byte>, i: nat, body: seq<byte>) returns (m: nat)
    requires i + |body| + 1 < |s| && s[i + |body|] == STAR && s[i + |body| + 1] == SLASH
    requires forall x :: i <= x < i + |body| ==> s[x] == body[x - i]
    requires SegmentOk(Block(body)) && !StarsAreHarmless(body)
    ensures i <= m <= i + |body| && m < BlockAt(s, i).i && BlockAt(s, i).buf[m] != SPACE
  {
    var end := i + |body|;
    var k :| 0 <= k < |body| && body[k] == STAR && !(k + 1 < |body| && body[k + 1] == SPACE);
    forall x | i <= x < end && s[x] == STAR ensures s[x + 1] != SLASH {
      if x + 1 < end {
        assert s[x + 1] == body[x + 1 - i];
      }
    }
    assert k + 1 < |body| ==> s[i + k + 1] == body[k + 1];
    m := BlockSlip(s, i, end, i + k);
  }

  /** A block comment that is not harmless keeps a byte that is no space. */
  lemma BlockCommentSlips(s: seq<byte>, i: nat, body: seq<byte>) returns (m: nat)
    requires BlockText(s, i, body) && SegmentOk(Block(body)) && !StarsAreHarmless(body)
    ensures i <= m < i + |Text(Block(body))| && m < CommentAt(s, i + 1).i
    ensures CommentAt(s, i + 1).buf[m] != SPACE
  {
    hide Reads;
    hide SegmentOk;
    hide StarsAreHarmless;
    hide BlockAt;
    hide CommentAt;
    hide Opened;
    BlockTextIs(s, i, body);
    BlockOpens(s, i);
    m := SlipIn(Opened(s, i), i + 2, body);
  }

  // ----- whole documents -----

  predicate IsComment(g: Segment) {
    g.Line? || g.Block?
  }

  /** The buffer behind the first segment of the document at `i`, unless that is a comma. */
  function AfterHead(s: seq<byte>, i: nat, d: Document): seq<byte>
    requires d.Item?
  {
    if IsComment(d.head) && i < |s| then CommentAt(s, i + 1).buf else s
  }

  /** The first segment is done for, and the rest of the document is where it was. */
  ghost predicate HeadDone(s: seq<byte>, s': seq<byte>, i: nat, d: Document)
    requires d.Item?
  {
    && Blanked(s, s', i, i + |Text(d.head)|)
    && Reads(s', i, StrippedText(d.head, d.tail))
    && At(s', i + |Text(d.head)|, d.tail)
  }

  lemma HeadIsDone(s: seq<byte>, i: nat, d: Document)
    requires WellFormed(d) && At(s, i, d) && d.Item? && !d.head.Comma?
    requires d.head.Block? ==> StarsAreHarmless(d.head.body)
    ensures i < |s| && HeadDone(s, AfterHead(s, i, d), i, d)
  {
    hide Render;
    hide Reads;
    hide Text;
    hide CommentAt;
    AtItem(s, i, d);
    var s', n := AfterHead(s, i, d), |Text(d.head)|;
    if d.head.Line? {
      LineComment(s, i, d);
      AtKept(s, s', i + n, d.tail);
    } else if d.head.Block? {
      BlockComment(s, i, d.head.body);
      AtKept(s, s', i + n, d.tail);
    }
  }

  lemma ReadsAt(s: seq<byte>, i: nat, t: seq<byte>, k: nat)
    requires Reads(s, i, t) && k < |t|
    ensures s[i + k] == t[k]
  {
  }

  /** The scan proper passes the first segment. */
  lemma PrepPasses(s: seq<byte>, i: nat, d: Document)
    requires WellFormed(d) && At(s, i, d) && d.Item? && !d.head.Comma?
    requires d.head.Block? ==> StarsAreHarmless(d.head.body)
    ensures i < |s| && PrepAt(s, i) == PrepAt(AfterHead(s, i, d), i + |Text(d.head)|)
  {
    hide Render;
    AtItem(s, i, d);
    match d.head {
      case Literal(body) => LiteralEnd(s, i, body);
      case Plain(b) =>
      case Line(_) => ReadsAt(s, i, Text(d.head), 1); LineComment(s, i, d);
      case Block(body) => ReadsAt(s, i, Text(d.head), 1); BlockComment(s, i, body);
    }
  }

  /** The result is right from `i` on just when it is right behind the first segment. */
  lemma RightBehind(out: seq<byte>, s': seq<byte>, s: seq<byte>, i: nat, d: Document)
    requires d.Item? && HeadDone(s, s', i, d)
    requires |out| == |s'| && forall k :: i <= k < i + |Text(d.head)| ==> out[k] == s'[k]
    ensures Reads(out, i, Stripped(d)) <==> Reads(out, i + |Text(d.head)|, Stripped(d.tail))
  {
    hide Text;
    RightItem(out, i, d);
  }

  /** A comment that keeps a byte spoils the result. */
  lemma Spoiled(out: seq<byte>, s: seq<byte>, i: nat, d: Document)
    requires WellFormed(d) && At(s, i, d) && d.Item? && d.head.Block? && !StarsAreHarmless(d.head.body)
    requires |out| == |s| && i + 1 <= |s|
    requires forall k :: i <= k < CommentAt(s, i + 1).i && k < |s| ==> out[k] == CommentAt(s, i + 1).buf[k]
    ensures !Reads(out, i, Stripped(d))
  {
    AtItem(s, i, d);
    var m := BlockCommentSlips(s, i, d.head.body);
    WrongItem(out, i, d, m);
  }

  /** What the scan makes of the rest of the buffer after the loop behind the comma at `j`. */
  function AfterGap(s: seq<byte>, j: nat, i: nat): seq<byte>
    requires j < |s|
  {
    var c := GapAt(s, j, i);
    PrepAt(c.buf, c.i)
  }

  /** Apart from the comma, neither the loop nor the rest of the scan goes back. */
  lemma {:induction false} AfterGapKeeps(s: seq<byte>, j: nat, i: nat)
    requires j <= i && j < |s|
    ensures |AfterGap(s, j, i)| == |s|
    ensures forall k :: 0 <= k <= i && k < |s| && k != j ==> AfterGap(s, j, i)[k] == s[k]
    decreases |s| - i
  {
    var c := GapAt(s, j, i);
    PrepAtBlanks(c.buf, c.i);
    if i + 1 < |s| && !IsCloser(s[i + 1]) {
      if s[i + 1] == SLASH {
        CommentAtBlanks(s, i + 2);
        var e := CommentAt(s, i + 2);
        AfterGapKeeps(e.buf, j, e.i);
      } else if IsWS(s[i + 1]) {
        AfterGapKeeps(s, j, i + 1);
      }
    }
  }

  /** Whether the first segment lies in the gap behind a comma. */
  predicate InGap(g: Segment) {
    IsComment(g) || (g.Plain? && Whitespace(g.b))
  }

  /** The first byte of a document that does not lie in the gap. */
  lemma HeadByte(d: Document)
    requires d.Item? && WellFormed(d) && !InGap(d.head)
    ensures var b := Text(d.head)[0];
            b != Byte('/') && !Whitespace(b) && (ClosingBracket(b) <==> Closes(d))
  {
  }

  lemma GapEnds(s: seq<byte>, j: nat, i: nat)
    requires j < |s| && (i + 1 < |s| ==> s[i + 1] != Byte('/') && !Whitespace(s[i + 1]))
    ensures GapAt(s, j, i) == Scan(if i + 1 < |s| && ClosingBracket(s[i + 1]) then s[j := SPACE] else s, i + 1)
  {
    if i + 1 < |s| {
      ScannerKnows(s[i + 1]);
    }
  }

  /** The loop behind the comma stops in front of the document and may blank the comma. */
  lemma GapStops(s: seq<byte>, j: nat, i: nat, d: Document)
    requires j <= i < |s| && s[j] == COMMA
    requires WellFormed(d) && At(s, i + 1, d) && !(d.Item? && InGap(d.head))
    ensures var s' := if Closes(d) then s[j := SPACE] else s;
            AfterGap(s, j, i) == PrepAt(s', i + 1) && At(s', i + 1, d)
  {
    if d.Item? {
      AtItem(s, i + 1, d);
      HeadByte(d);
      AtKept(s, s[j := SPACE], i + 1, d);
    }
    GapEnds(s, j, i);
    hide PrepAt;
    hide GapAt;
    hide Render;
    hide Text;
    hide WellFormed;
    hide ClosingBracket;
    hide Whitespace;
  }

  lemma GapEnters(s: seq<byte>, j: nat, i: nat)
    requires j <= i && i + 1 < |s| && s[i + 1] == SLASH
    ensures var c := CommentAt(s, i + 2); AfterGap(s, j, i) == AfterGap(c.buf, j, c.i)
  {
  }

  /** Whether the loop goes on at a newline or before it makes no difference; nor at the end. */
  lemma GapAtNewline(s: seq<byte>, j: nat, k: nat, d: Document)
    requires j < k && j < |s| && At(s, k, d)
    requires d == End || (d.head.Plain? && IsNL(d.head.b))
    ensures AfterGap(s, j, k - 1) == AfterGap(s, j, k)
  {
    if d.Item? {
      AtItem(s, k, d);
    }
  }

  lemma GapPassesLine(s: seq<byte>, j: nat, i: nat, d: Document)
    requires j <= i < |s| && s[j] == COMMA
    requires WellFormed(d) && At(s, i + 1, d) && d.Item? && d.head.Line?
    ensures i + |Text(d.head)| < |s|
    ensures AfterGap(s, j, i) == AfterGap(AfterHead(s, i + 1, d), j, i + |Text(d.head)|)
  {
    hide Blanked;
    hide Render;
    hide Reads;
    hide CommentAt;
    hide StrippedText;
    hide AfterGap;
    AtItem(s, i + 1, d);
    GapEnters(s, j, i);
    LineComment(s, i + 1, d);
    HeadIsDone(s, i + 1, d);
    GapAtNewline(AfterHead(s, i + 1, d), j, i + 1 + |Text(d.head)|, d.tail);
  }

  /** The loop behind the comma passes the first segment. */
  lemma GapPasses(s: seq<byte>, j: nat, i: nat, d: Document)
    requires j <= i < |s| && s[j] == COMMA
    requires WellFormed(d) && At(s, i + 1, d) && d.Item? && InGap(d.head)
    requires d.head.Block? ==> StarsAreHarmless(d.head.body)
    ensures i + |Text(d.head)| < |s|
    ensures AfterGap(s, j, i) == AfterGap(AfterHead(s, i + 1, d), j, i + |Text(d.head)|)
  {
    hide Render;
    AtItem(s, i + 1, d);
    match d.head {
      case Plain(b) =>
      case Line(_) => GapPassesLine(s, j, i, d);
      case Block(body) => ReadsAt(s, i + 1, Text(d.head), 1); BlockComment(s, i + 1, body);
    }
  }

  lemma PrepAtKeeps(s: seq<byte>, i: nat)
    ensures |PrepAt(s, i)| == |s| && forall k :: 0 <= k < i && k < |s| ==> PrepAt(s, i)[k] == s[k]
  {
    PrepAtBlanks(s, i);
  }

  lemma GapBlockStarts(s: seq<byte>, j: nat, i: nat, d: Document)
    requires j <= i < |s| && At(s, i + 1, d) && d.Item? && d.head.Block?
    ensures i + 2 <= |s|
    ensures var c := CommentAt(s, i + 2); AfterGap(s, j, i) == AfterGap(c.buf, j, c.i)
  {
    AtItem(s, i + 1, d);
  }

  lemma CommaKept(s: seq<byte>, s': seq<byte>, j: nat, i: nat, d: Document)
    requires j <= i < |s| && s[j] == COMMA && d.Item? && HeadDone(s, s', i + 1, d)
    ensures s'[j] == COMMA
  {
  }

  lemma EndIsRight(out: seq<byte>, i: nat)
    requires i <= |out|
    ensures Reads(out, i, Stripped(End))
  {
  }

  lemma CommaStarts(s: seq<byte>, i: nat, d: Document)
    requires At(s, i, d) && d.Item? && d.head.Comma?
    ensures i < |s| && s[i] == COMMA && PrepAt(s, i) == AfterGap(s, i, i) && At(s, i + 1, d.tail)
  {
    AtItem(s, i, d);
  }

  lemma ReadsOne(out: seq<byte>, i: nat, t: seq<byte>)
    requires i < |out| && |t| == 1 && out[i] == t[0]
    ensures Reads(out, i, t)
  {
  }

  lemma CommaRight(out: seq<byte>, i: nat, d: Document)
    requires d.Item? && d.head.Comma? && |out| == i + |Render(d)|
    requires Reads(out, i + 1, Stripped(d.tail)) <==> BlocksAreHarmless(d.tail)
    requires BlocksAreHarmless(d.tail) ==> out[i] == if Closes(d.tail) then SPACE else COMMA
    ensures Reads(out, i, Stripped(d)) <==> BlocksAreHarmless(d)
  {
    var t := StrippedText(Comma, d.tail);
    if out[i] == t[0] {
      ReadsOne(out, i, t);
      hide Reads;
      RightItem(out, i, d);
    } else {
      hide Reads;
      WrongItem(out, i, d, i);
    }
  }

  lemma BlockStarts(s: seq<byte>, i: nat, d: Document)
    requires At(s, i, d) && d.Item? && d.head.Block?
    ensures i < |s| && s[i] == SLASH
    ensures var c := CommentAt(s, i + 1); PrepAt(s, i) == PrepAt(c.buf, c.i)
  {
    AtItem(s, i, d);
  }

  /** The scan proper at the start of a document. */
  lemma {:induction false} PrepDocument(s: seq<byte>, i: nat, d: Document)
    requires WellFormed(d) && At(s, i, d)
    ensures Reads(PrepAt(s, i), i, Stripped(d)) <==> BlocksAreHarmless(d)
    decreases d, 0
  {
    hide Reads;
    hide Render;
    hide Text;
    hide Stripped;
    hide StarsAreHarmless;
    hide Blanked;
    var out := PrepAt(s, i);
    match d {
      case End => EndIsRight(out, i);
      case Item(g, rest) =>
        if g.Comma? {
          CommaStarts(s, i, d);
          GapDocument(s, i, i, rest);
          CommaRight(out, i, d);
        } else if g.Block? && !StarsAreHarmless(g.body) {
          BlockStarts(s, i, d);
          var c := CommentAt(s, i + 1);
          PrepAtKeeps(c.buf, c.i);
          Spoiled(out, s, i, d);
        } else {
          var s', n := AfterHead(s, i, d), |Text(g)|;
          PrepPasses(s, i, d);
          HeadIsDone(s, i, d);
          PrepAtKeeps(s', i + n);
          RightBehind(out, s', s, i, d);
          PrepDocument(s', i + n, rest);
        }
    }
  }

  /** The loop behind the comma at `j`, with its index before the start of a document. */
  lemma {:induction false} GapDocument(s: seq<byte>, j: nat, i: nat, d: Document)
    requires j <= i < |s| && s[j] == COMMA
    requires WellFormed(d) && At(s, i + 1, d)
    ensures Reads(AfterGap(s, j, i), i + 1, Stripped(d)) <==> BlocksAreHarmless(d)
    ensures |AfterGap(s, j, i)| == |s|
    ensures BlocksAreHarmless(d) ==> AfterGap(s, j, i)[j] == if Closes(d) then SPACE else COMMA
    decreases d, 1
  {
    hide Reads;
    hide Render;
    hide Text;
    hide Stripped;
    hide StarsAreHarmless;
    hide Blanked;
    hide GapAt;
    hide AfterGap;
    hide AfterHead;
    hide PrepAt;
    hide CommentAt;
    var out := AfterGap(s, j, i);
    AfterGapKeeps(s, j, i);
    if !(d.Item? && InGap(d.head)) {
      var s' := if Closes(d) then s[j := SPACE] else s;
      GapStops(s, j, i, d);
      PrepAtKeeps(s', i + 1);
      PrepDocument(s', i + 1, d);
    } else if d.head.Block? && !StarsAreHarmless(d.head.body) {
      GapBlockStarts(s, j, i, d);
      var c := CommentAt(s, i + 2);
      AfterGapKeeps(c.buf, j, c.i);
      Spoiled(out, s, i + 1, d);
    } else {
      var s', n := AfterHead(s, i + 1, d), |Text(d.head)|;
      GapPasses(s, j, i, d);
      HeadIsDone(s, i + 1, d);
      CommaKept(s, s', j, i, d);
      AfterGapKeeps(s', j, i + n);
      RightBehind(out, s', s, i + 1, d);
      GapDocument(s', j, i + n, d.tail);
    }
  }

  /** Stripping does to a document what it is for exactly when every star inside a block comment is
      followed by a space of that comment; in particular when there are none. */
  lemma StripDocument(d: Document)
    requires WellFormed(d)
    ensures Strip(Render(d)) == Stripped(d) <==> BlocksAreHarmless(d)
  {
    var s := Render(d);
    PrepAtKeeps(s, 0);
    PrepDocument(s, 0, d);
    if Reads(Strip(s), 0, Stripped(d)) {
      assert Strip(s) == Stripped(d);
    }
  }

  // ----- stripping twice -----

  /** Whether the next significant byte is a comma that stripping removes. */
  predicate RemovedCommaNext(d: Document) {
    match d
    case End => false
    case Item(Comma, rest) => Closes(rest)
    case Item(g, rest) => InGap(g) && RemovedCommaNext(rest)
  }

  /** Some comma has nothing but whitespace and comments between it and a comma that is removed. */
  predicate CommaBeforeRemoved(d: Document) {
    d.Item? && ((d.head.Comma? && RemovedCommaNext(d.tail)) || CommaBeforeRemoved(d.tail))
  }

  function Pad(n: nat, d: Document): Document {
    if n == 0 then d else Item(Plain(SPACE), Pad(n - 1, d))
  }

  /** The stripped document as a document. */
  function Clean(d: Document): Document {
    match d
    case End => End
    case Item(g, rest) =>
      if IsComment(g) then Pad(|Text(g)|, Clean(rest))
      else if g.Comma? && Closes(rest) then Item(Plain(SPACE), Clean(rest))
      else Item(g, Clean(rest))
  }

  predicate NothingToStrip(d: Document) {
    d.Item? ==> !IsComment(d.head) && !(d.head.Comma? && Closes(d.tail)) && NothingToStrip(d.tail)
  }

  predicate NoComments(d: Document) {
    d.Item? ==> !IsComment(d.head) && NoComments(d.tail)
  }

  lemma Associates(a: seq<byte>, b: seq<byte>, c: seq<byte>)
    ensures (a + b) + c == a + (b + c)
  {
  }

  lemma {:induction false} PadFacts(n: nat, d: Document)
    ensures Render(Pad(n, d)) == Spaces(n) + Render(d)
    ensures Closes(Pad(n, d)) == Closes(d)
    ensures WellFormed(d) && NoComments(d) ==> WellFormed(Pad(n, d)) && NoComments(Pad(n, d))
    ensures NothingToStrip(Pad(n, d)) == NothingToStrip(d)
  {
    if n == 0 {
      assert Spaces(0) + Render(d) == Render(d);
    } else {
      PadFacts(n - 1, d);
      assert Spaces(n) == [SPACE] + Spaces(n - 1);
      Associates([SPACE], Spaces(n - 1), Render(d));
    }
  }

  /** A gap ends in one way only. */
  lemma {:induction false} ClosesOnce(d: Document)
    ensures !(Closes(d) && RemovedCommaNext(d))
  {
    if d.End? {
    } else {
      ClosesOnce(d.tail);
    }
  }

  lemma {:induction false} CleanFacts(d: Document)
    requires WellFormed(d)
    ensures Render(Clean(d)) == Stripped(d)
    ensures WellFormed(Clean(d)) && NoComments(Clean(d))
    ensures Closes(Clean(d)) == (Closes(d) || RemovedCommaNext(d))
    ensures NothingToStrip(Clean(d)) <==> !CommaBeforeRemoved(d)
  {
    if d.End? {
    } else {
      CleanFacts(d.tail);
      ClosesOnce(d.tail);
      PadFacts(|Text(d.head)|, Clean(d.tail));
    }
  }

  lemma {:induction false} NoCommentsHarmless(d: Document)
    requires NoComments(d)
    ensures BlocksAreHarmless(d)
  {
    if d.End? {
    } else {
      NoCommentsHarmless(d.tail);
    }
  }

  /** Without comments, stripping changes nothing just when no comma is to go. */
  lemma {:induction false} UnchangedWhen(d: Document)
    requires NoComments(d)
    ensures Stripped(d) == Render(d) <==> NothingToStrip(d)
  {
    if d.End? {
    } else {
      UnchangedWhen(d.tail);
      var a, b := StrippedText(d.head, d.tail), Text(d.head);
      assert Stripped(d)[..|a|] == a && Stripped(d)[|a|..] == Stripped(d.tail);
      assert Render(d)[..|b|] == b && Render(d)[|b|..] == Render(d.tail);
    }
  }

  /** Stripping twice is stripping once exactly when no comma stands right before a removed one. */
  lemma StripTwice(d: Document)
    requires WellFormed(d) && BlocksAreHarmless(d)
    ensures Strip(Strip(Render(d))) == Strip(Render(d)) <==> !CommaBeforeRemoved(d)
  {
    StripDocument(d);
    CleanFacts(d);
    NoCommentsHarmless(Clean(d));
    StripDocument(Clean(d));
    UnchangedWhen(Clean(d));
  }

  /** Of two commas before a bracket only the second is removed; stripping again removes the first. */
  lemma TwoCommasNeedTwoStrips()
    ensures var d := Item(Comma, Item(Comma, Item(Plain(Byte(']')), End)));
            WellFormed(d) && BlocksAreHarmless(d) && Strip(Strip(Render(d))) != Strip(Render(d))
  {
    StripTwice(Item(Comma, Item(Comma, Item(Plain(Byte(']')), End))));
  }

  /** The byte sequence `/***/` is a block comment whose body is one star: the scanner takes its closing
      star for the byte the first one hides, and the comment does not end. */
  lemma StarredCommentIsNotStripped()
    ensures var d := Item(Block([STAR]), End);
            WellFormed(d) && Strip(Render(d)) != Stripped(d)
  {
    var d := Item(Block([STAR]), End);
    assert !StarsAreHarmless([STAR]) by {
      assert [STAR][0] == STAR;
    }
    StripDocument(d);
  }

  // ----- what is no document -----

  predicate OpensComment(s: seq<byte>, i: nat) {
    i < |s| && (s[i] == Byte('/') || s[i] == Byte('*'))
  }

  /** A slash that opens no comment stays, and the scan goes on behind it. */
  lemma LoneSlashStays(s: seq<byte>, i: nat)
    requires i < |s| && s[i] == Byte('/') && !OpensComment(s, i + 1)
    ensures PrepAt(s, i) == PrepAt(s, i + 1)
  {
    ScannerKnows(s[i]);
  }

  /** Behind a comma it also hides the byte that follows it from the search for a bracket. */
  lemma LoneSlashHides(s: seq<byte>, j: nat, i: nat)
    requires j < |s| && i + 1 < |s| && s[i + 1] == Byte('/') && !OpensComment(s, i + 2)
    ensures GapAt(s, j, i) == GapAt(s, j, i + 2)
  {
    ScannerKnows(s[i + 1]);
  }

  /** So the comma of `,/1]` is removed although a digit stands between it and the bracket. */
  lemma HiddenDigit()
    ensures Strip([Byte(','), Byte('/'), Byte('1'), Byte(']')]) == [Byte(' '), Byte('/'), Byte('1'), Byte(']')]
  {
    var s := [Byte(','), Byte('/'), Byte('1'), Byte(']')];
    LoneSlashHides(s, 0, 0);
    var t := s[0 := SPACE];
    assert GapAt(s, 0, 2) == Scan(t, 3);
    assert PrepAt(t, 3) == PrepAt(t, 4) == t;
  }

  /** From `k` on no quote ends the literal. */
  predicate StaysOpen(s: seq<byte>, k: nat)
    decreases |s| - k
  {
    k < |s| ==> if s[k] == Byte('\\') then StaysOpen(s, k + 2) else s[k] != Byte('"') && StaysOpen(s, k + 1)
  }

  lemma {:induction false} OpenScan(s: seq<byte>, k: nat)
    requires StaysOpen(s, k)
    ensures StringAt(s, k) >= |s|
    decreases |s| - k
  {
    if k >= |s| {
    } else {
      ScannerKnows(s[k]);
      OpenScan(s, if s[k] == Byte('\\') then k + 2 else k + 1);
    }
  }

  /** A literal that is not closed hides the rest of the buffer. */
  lemma OpenLiteralStays(s: seq<byte>, i: nat)
    requires i < |s| && s[i] == Byte('"') && StaysOpen(s, i + 1)
    ensures PrepAt(s, i) == s
  {
    OpenScan(s, i + 1);
  }

  lemma {:induction false} OpenBlockScan(s: seq<byte>, k: nat)
    requires k <= |s| && forall m :: k <= m < |s| ==> s[m] != Byte('*')
    ensures BlockAt(s, k).i == |s| && BlockAt(s, k).buf == s[..k] + Spaces(|s| - k)
    decreases |s| - k
  {
    if k == |s| {
    } else {
      ScannerKnows(s[k]);
      var t := s[k := SPACE];
      OpenBlockScan(t, k + 1);
      assert t[..k + 1] + Spaces(|s| - (k + 1)) == s[..k] + Spaces(|s| - k);
    }
  }

  /** A block comment that is not closed, and holds no star, blanks the rest of the buffer. */
  lemma OpenBlockBlanks(s: seq<byte>, i: nat)
    requires i + 1 < |s| && s[i] == Byte('/') && s[i + 1] == Byte('*')
    requires forall m :: i + 2 <= m < |s| ==> s[m] != Byte('*')
    ensures PrepAt(s, i) == s[..i] + Spaces(|s| - i)
  {
    ScannerKnows(s[i]);
    var t := s[i := SPACE][i + 1 := SPACE];
    assert CommentAt(s, i + 1) == BlockAt(t, i + 1);
    OpenBlockScan(t, i + 1);
    assert t[..i + 1] + Spaces(|s| - (i + 1)) == s[..i] + Spaces(|s| - i);
  }
}
