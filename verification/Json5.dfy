/** The comment and trailing-comma stripper of common/json5/json5.go.

    `Prep` and `ConsumeComment` overwrite a byte buffer in place. Each is proved against a function on
    the contents of the buffer and the scan index; what the scan does to every buffer is proved here,
    what it does to the documents it is meant for in module Json5Documents. */
module Json5 {
  import opened Panel

  const TAB: byte := 9
  const LF: byte := 10
  const CR: byte := 13
  const SPACE: byte := 32
  const QUOTE: byte := 34
  const STAR: byte := 42
  const COMMA: byte := 44
  const SLASH: byte := 47
  const BACKSLASH: byte := 92
  const RBRACKET: byte := 93
  const RBRACE: byte := 125

  predicate IsNL(c: byte) {
    c == LF || c == CR
  }

  predicate IsWS(c: byte) {
    c == SPACE || c == TAB || IsNL(c)
  }

  predicate IsCloser(c: byte) {
    c == RBRACE || c == RBRACKET
  }

  /** The buffer and the scan index, which may lie behind the end of the buffer. */
  datatype Scan = Scan(buf: seq<byte>, i: nat)

  function LineAt(s: seq<byte>, i: nat): (r: Scan)
    ensures |r.buf| == |s| && i <= r.i
    decreases |s| - i
  {
    if i < |s| && !IsNL(s[i]) then LineAt(s[i := SPACE], i + 1) else Scan(s, i)
  }

  function BlockAt(s: seq<byte>, i: nat): (r: Scan)
    ensures |r.buf| == |s| && i <= r.i
    decreases |s| - i
  {
    if i >= |s| then Scan(s, i)
    else if s[i] != STAR then BlockAt(s[i := SPACE], i + 1)
    else if i + 1 < |s| && s[i + 1] == SLASH then Scan(s[i := SPACE][i + 1 := SPACE], i + 1)
    else BlockAt(s[i := SPACE], i + 2)
  }

  function CommentAt(s: seq<byte>, i: nat): (r: Scan)
    requires 1 <= i <= |s|
    ensures |r.buf| == |s| && i <= r.i
  {
    if i < |s| && s[i] == SLASH then LineAt(s[i - 1 := SPACE], i)
    else if i < |s| && s[i] == STAR then BlockAt(s[i - 1 := SPACE][i := SPACE], i)
    else Scan(s, i)
  }

  /** The index behind the string literal whose opening quote lies before `i`. */
  function StringAt(s: seq<byte>, i: nat): (r: nat)
    ensures i <= r
    decreases |s| - i
  {
    if i >= |s| then i
    else if s[i] == QUOTE then i + 1
    else if s[i] == BACKSLASH then StringAt(s, i + 2)
    else StringAt(s, i + 1)
  }

  /** The loop behind the comma at `j`; `i` is the index before it is incremented. */
  function GapAt(s: seq<byte>, j: nat, i: nat): (r: Scan)
    requires j < |s|
    ensures |r.buf| == |s| && i < r.i
    decreases |s| - i
  {
    if i + 1 >= |s| then Scan(s, i + 1)
    else if IsCloser(s[i + 1]) then Scan(s[j := SPACE], i + 1)
    else if s[i + 1] == SLASH then
      var c := CommentAt(s, i + 2);
      GapAt(c.buf, j, c.i)
    else if !IsWS(s[i + 1]) then Scan(s, i + 1)
    else GapAt(s, j, i + 1)
  }

  function PrepAt(s: seq<byte>, i: nat): (r: seq<byte>)
    ensures |r| == |s|
    decreases |s| - i
  {
    if i >= |s| then s
    else if s[i] == QUOTE then PrepAt(s, StringAt(s, i + 1))
    else if s[i] == SLASH then
      var c := CommentAt(s, i + 1);
      PrepAt(c.buf, c.i)
    else if s[i] == COMMA then
      var c := GapAt(s, i, i);
      PrepAt(c.buf, c.i)
    else PrepAt(s, i + 1)
  }

  /** What `Prep` leaves in the buffer. */
  function Strip(s: seq<byte>): seq<byte> {
    PrepAt(s, 0)
  }

  /** The index passes the end of the buffer when an unclosed block comment ends in a star. */
  method ConsumeComment(s: array<byte>, start: nat) returns (i: nat)
    requires 1 <= start <= s.Length
    modifies s
    ensures Scan(s[..], i) == CommentAt(old(s[..]), start)
  {
    i := start;
    if i < s.Length && s[i] == SLASH {
      s[i - 1] := SPACE;
      while i < s.Length && !IsNL(s[i])
        invariant start <= i <= s.Length
        invariant LineAt(s[..], i) == CommentAt(old(s[..]), start)
      {
        s[i] := SPACE;
        i := i + 1;
      }
    }
    if i < s.Length && s[i] == STAR {
      s[i - 1] := SPACE;
      s[i] := SPACE;
      while i < s.Length
        invariant start <= i
        invariant BlockAt(s[..], i) == CommentAt(old(s[..]), start)
      {
        if s[i] != STAR {
          s[i] := SPACE;
        } else {
          s[i] := SPACE;
          i := i + 1;
          if i < s.Length {
            if s[i] == SLASH {
              s[i] := SPACE;
              break;
            }
          }
        }
        i := i + 1;
      }
    }
  }

  /** The buffer holds the bytes read from the source. Every index is in bounds for every content. */
  method Prep(s: array<byte>)
    modifies s
    ensures s[..] == Strip(old(s[..]))
  {
    var i := 0;
    while i < s.Length
      invariant PrepAt(s[..], i) == Strip(old(s[..]))
      decreases s.Length - i
    {
      if s[i] == QUOTE {
        i := i + 1;
        ghost var open := i;
        while i < s.Length
          invariant open <= i
          invariant StringAt(s[..], i) == StringAt(s[..], open)
          decreases s.Length - i
        {
          if s[i] == QUOTE {
            i := i + 1;
            break;
          } else if s[i] == BACKSLASH {
            i := i + 1;
          }
          i := i + 1;
        }
      } else if s[i] == SLASH {
        i := ConsumeComment(s, i + 1);
      } else if s[i] == COMMA {
        var j := i;
        ghost var comma := s[..];
        while true
          invariant j <= i
          invariant GapAt(s[..], j, i) == GapAt(comma, j, j)
          decreases s.Length - i
        {
          i := i + 1;
          if i >= s.Length {
            break;
          } else if IsCloser(s[i]) {
            s[j] := SPACE;
            break;
          } else if s[i] == SLASH {
            i := ConsumeComment(s, i + 1);
          } else if !IsWS(s[i]) {
            break;
          }
        }
      } else {
        i := i + 1;
      }
    }
  }

  // ----- facts about every buffer -----

  /** `after` is `before` with bytes in `[lo, hi)` replaced by spaces and nothing else changed. */
  ghost predicate Blanked(before: seq<byte>, after: seq<byte>, lo: nat, hi: nat) {
    && |after| == |before|
    && forall k :: 0 <= k < |before| && after[k] != before[k] ==> lo <= k < hi && after[k] == SPACE
  }

  lemma {:induction false} LineAtBlanks(s: seq<byte>, i: nat)
    ensures Blanked(s, LineAt(s, i).buf, i, LineAt(s, i).i)
    decreases |s| - i
  {
    if i >= |s| || IsNL(s[i]) {
    } else {
      LineAtBlanks(s[i := SPACE], i + 1);
    }
  }

  lemma {:induction false} BlockAtBlanks(s: seq<byte>, i: nat)
    ensures Blanked(s, BlockAt(s, i).buf, i, BlockAt(s, i).i + 1)
    decreases |s| - i
  {
    if i < |s| && s[i] != STAR {
      BlockAtBlanks(s[i := SPACE], i + 1);
    } else if i < |s| && !(i + 1 < |s| && s[i + 1] == SLASH) {
      BlockAtBlanks(s[i := SPACE], i + 2);
    }
  }

  lemma CommentAtBlanks(s: seq<byte>, i: nat)
    requires 1 <= i <= |s|
    ensures Blanked(s, CommentAt(s, i).buf, i - 1, CommentAt(s, i).i + 1)
  {
    if i < |s| && s[i] == SLASH {
      LineAtBlanks(s[i - 1 := SPACE], i);
    } else if i < |s| && s[i] == STAR {
      BlockAtBlanks(s[i - 1 := SPACE][i := SPACE], i);
    }
  }

  lemma {:induction false} GapAtBlanks(s: seq<byte>, j: nat, i: nat)
    requires j <= i && j < |s|
    ensures Blanked(s, GapAt(s, j, i).buf, j, GapAt(s, j, i).i)
    decreases |s| - i
  {
    if i + 1 < |s| && !IsCloser(s[i + 1]) {
      if s[i + 1] == SLASH {
        CommentAtBlanks(s, i + 2);
        var c := CommentAt(s, i + 2);
        GapAtBlanks(c.buf, j, c.i);
      } else if IsWS(s[i + 1]) {
        GapAtBlanks(s, j, i + 1);
      }
    }
  }

  /** The scan never touches a byte before the index it starts from. */
  lemma {:induction false} PrepAtBlanks(s: seq<byte>, i: nat)
    ensures Blanked(s, PrepAt(s, i), i, |s|)
    decreases |s| - i
  {
    if i >= |s| {
    } else {
      if s[i] == QUOTE {
        PrepAtBlanks(s, StringAt(s, i + 1));
      } else if s[i] == SLASH {
        CommentAtBlanks(s, i + 1);
        var c := CommentAt(s, i + 1);
        PrepAtBlanks(c.buf, c.i);
      } else if s[i] == COMMA {
        GapAtBlanks(s, i, i);
        var c := GapAt(s, i, i);
        PrepAtBlanks(c.buf, c.i);
      } else {
        PrepAtBlanks(s, i + 1);
      }
    }
  }

  /** Whatever the buffer holds, stripping keeps its length and only ever puts spaces into it. */
  lemma StripBlanks(s: seq<byte>)
    ensures |Strip(s)| == |s|
    ensures forall k :: 0 <= k < |s| ==> Strip(s)[k] == s[k] || Strip(s)[k] as int == ' ' as int
  {
    PrepAtBlanks(s, 0);
  }

  // ----- the reader in front of the scan -----

  /** A reader as io.Copy sees it: the bytes it gives, and whether it then fails instead of ending. */
  class Source {
    var rest: seq<byte>
    var fails: bool

    constructor (rest: seq<byte>, fails: bool)
      ensures this.rest == rest && this.fails == fails
    {
      this.rest, this.fails := rest, fails;
    }
  }

  datatype ReadResult = Count(n: nat) | EndOfFile | Failed

  class TrimNodeReader {
    const r: Source
    var br: Option<seq<byte>>  // what the inner reader still holds, once there is one

    constructor (r: Source)
      ensures this.r == r && br == None
    {
      this.r, br := r, None;
    }

    /** Reads piecewise from the stripped content of the source, which is fetched by the first read
        that does not fail. */
    method Read(p: array<byte>) returns (res: ReadResult)
      modifies this, r, p
      ensures old(br).None? && old(r.fails) ==> res == Failed && br == None && p[..] == old(p[..])
      ensures old(br).Some? || !old(r.fails) ==>
                var left := if old(br).Some? then old(br).value else Strip(old(r.rest));
                && br.Some?
                && (left == [] ==> res == EndOfFile && br.value == [] && p[..] == old(p[..]))
                && (left != [] ==> res.Count? && res.n <= p.Length && p[..res.n] + br.value == left
                                   && p[res.n..] == old(p[res.n..])
                                   && (res.n == p.Length || br.value == []))
    {
      if br.None? {
        var content := r.rest;
        var s := new byte[|content|](k requires 0 <= k < |content| => content[k]);
        assert s[..] == content;
        r.rest := [];
        if r.fails {
          return Failed;
        }
        Prep(s);
        br := Some(s[..]);
      }
      var left := br.value;
      if left == [] {
        return EndOfFile;
      }
      var n := if |left| < p.Length then |left| else p.Length;
      for k := 0 to n
        invariant p[..k] == left[..k]
        invariant p[n..] == old(p[n..])
        invariant br == Some(left) && (old(br).Some? ==> br == old(br))
      {
        p[k] := left[k];
      }
      br := Some(left[n..]);
      res := Count(n);
    }
  }
}
