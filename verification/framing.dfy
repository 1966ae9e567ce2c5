/**
 * In-band framing of the bridge's byte stream (zagreus/server.py, lines 19-34).
 *
 * Text and one-byte commands share one byte stream.  The byte 0xFF is the
 * escape byte: `encode` doubles every 0xFF of the UTF-8 text, `command(c)`
 * is 0xFF followed by `c`, and `decode` splits a received chunk on every
 * "0xFF followed by any byte" and tags every piece that starts with 0xFF as
 * a command, so a lone 0xFF ending the chunk is a command with no payload.
 */
module Framing {
  import Seqs


  newtype byte = x: int | 0 <= x < 0x100

  /** ESCAPE (server.py:19) */
  const Escape: byte := 0xFF
  /** RESET, the command byte b'r' (server.py:20) */
  const ResetCommand: byte := 0x72
  const LF: byte := 0x0A
  const CR: byte := 0x0D

  /** One item produced by `decode`: a text piece, or a command with the bytes that follow its escape byte. */
  datatype Piece = Text(bytes: seq<byte>) | Cmd(payload: seq<byte>)

  // ---------------------------------------------------------------------
  // UTF-8 encoding of text (the `text.encode('utf-8', ...)` half of encode)
  // ---------------------------------------------------------------------

  /** The UTF-8 encoding of one Unicode scalar value. */
  function Utf8Char(c: char): (r: seq<byte>)
    ensures 1 <= |r| <= 4
    ensures c as int < 0x80 ==> r == [c as int as byte]
    ensures forall i :: 0 <= i < |r| ==> r[i] <= 0xF4
  {
    var n := c as int;
    if n < 0x80 then [n as byte]
    else if n < 0x800 then [(0xC0 + n / 0x40) as byte, (0x80 + n % 0x40) as byte]
    else if n < 0x10000 then
      [(0xE0 + n / 0x1000) as byte, (0x80 + n / 0x40 % 0x40) as byte, (0x80 + n % 0x40) as byte]
    else
      [(0xF0 + n / 0x40000) as byte, (0x80 + n / 0x1000 % 0x40) as byte,
       (0x80 + n / 0x40 % 0x40) as byte, (0x80 + n % 0x40) as byte]
  }

  /** The UTF-8 encoding of a string. */
  function Utf8(s: string): seq<byte>
  {
    if s == [] then [] else Utf8Char(s[0]) + Utf8(s[1..])
  }

  /** UTF-8 output never contains the escape byte, so encode's doubling never fires on real text. */
  lemma {:induction false} Utf8NeverEscapes(s: string)
    ensures Escape !in Utf8(s)
  {
    if s != [] {
      Utf8NeverEscapes(s[1..]);
      var h := Utf8Char(s[0]);
      assert Escape !in h by {
        forall i | 0 <= i < |h| ensures h[i] != Escape { }
      }
    }
  }

  /** On ASCII text UTF-8 is the identity on code points. */
  lemma {:induction false} Utf8Ascii(s: string)
    requires forall i :: 0 <= i < |s| ==> s[i] as int < 0x80
    ensures |Utf8(s)| == |s|
    ensures forall i :: 0 <= i < |s| ==> Utf8(s)[i] as int == s[i] as int
  {
    if s != [] {
      Utf8Ascii(s[1..]);
      assert Utf8(s) == [s[0] as int as byte] + Utf8(s[1..]);
    }
  }

  // ---------------------------------------------------------------------
  // encode, command, decode
  // ---------------------------------------------------------------------

  /** What encode makes of one byte. */
  function EscapeByte(b: byte): seq<byte>
  {
    if b == Escape then [Escape, Escape] else [b]
  }

  /** encode (server.py:23-24), applied to the UTF-8 bytes of the text: every 0xFF is doubled. */
  function Encode(t: seq<byte>): (r: seq<byte>)
    ensures |r| == |t| + multiset(t)[Escape]
  {
    if t == [] then []
    else
      assert t == [t[0]] + t[1..];
      EscapeByte(t[0]) + Encode(t[1..])
  }

  /**
   * command (server.py:33-34): the escape byte followed by the command
   * byte, which decode reads back as that one command and nothing else.
   */
  function Command(c: byte): (r: seq<byte>)
    ensures Decode(r) == [Text([]), Cmd([c]), Text([])]
  {
    DecodeEscapePair(c, []);
    DecodeEmpty();
    assert [Escape, c] + [] == [Escape, c];
    [Escape, c]
  }

  /**
   * ESCAPE_RE.split(data) (server.py:21, 27).  The pattern is 0xFF followed
   * by any byte, inside one capturing group, so the chunks alternate: the
   * bytes between two matches (possibly none) at even positions, each
   * two-byte match at the odd ones.  The scan goes left to right, and a
   * 0xFF that ends the input has no follower, so it stays in the last chunk.
   */
  function Split(d: seq<byte>): (cs: seq<seq<byte>>)
    ensures cs != []
    decreases |d|
  {
    if |d| >= 2 && d[0] == Escape then [[], d[..2]] + Split(d[2..])
    else if d == [] then [[]]
    else
      var rest := Split(d[1..]);
      [[d[0]] + rest[0]] + rest[1..]
  }

  /** The chunks put back together. */
  function Join(cs: seq<seq<byte>>): seq<byte>
  {
    if cs == [] then [] else cs[0] + Join(cs[1..])
  }

  lemma JoinCons(c: seq<byte>, cs: seq<seq<byte>>)
    ensures Join([c] + cs) == c + Join(cs)
  {
    assert ([c] + cs)[1..] == cs;
  }

  /** re.split loses nothing: its chunks, joined, are the input. */
  lemma {:induction false} SplitPartitions(d: seq<byte>)
    ensures Join(Split(d)) == d
    decreases |d|
  {
    if |d| >= 2 && d[0] == Escape {
      SplitPartitions(d[2..]);
      var rest := Split(d[2..]);
      JoinCons(d[..2], rest);
      JoinCons([], [d[..2]] + rest);
      assert [[], d[..2]] + rest == [[]] + ([d[..2]] + rest);
      assert d[..2] + d[2..] == d;
    } else if d != [] {
      SplitPartitions(d[1..]);
      var rest := Split(d[1..]);
      Seqs.HeadTail(rest);
      JoinCons(rest[0], rest[1..]);
      JoinCons([d[0]] + rest[0], rest[1..]);
      Seqs.AppendAssoc([d[0]], rest[0], Join(rest[1..]));
      Seqs.HeadTail(d);
    }
  }

  /** Every odd-indexed chunk is a match, an escape and its follower, and there is one more chunk between matches than there are matches. */
  ghost predicate SplitShape(cs: seq<seq<byte>>)
  {
    |cs| % 2 == 1 && forall i :: 0 <= i < |cs| && i % 2 == 1 ==> |cs[i]| == 2 && cs[i][0] == Escape
  }

  lemma {:induction false} SplitAlternates(d: seq<byte>)
    ensures SplitShape(Split(d))
    decreases |d|
  {
    var cs := Split(d);
    if |d| >= 2 && d[0] == Escape {
      SplitAlternates(d[2..]);
      var rest := Split(d[2..]);
      assert cs == [[], d[..2]] + rest;
      forall i | 0 <= i < |cs| && i % 2 == 1
        ensures |cs[i]| == 2 && cs[i][0] == Escape
      {
        if i >= 2 {
          assert cs[i] == rest[i - 2];
        }
      }
    } else if d != [] {
      SplitAlternates(d[1..]);
      var rest := Split(d[1..]);
      assert cs == [[d[0]] + rest[0]] + rest[1..];
      forall i | 0 <= i < |cs| && i % 2 == 1
        ensures |cs[i]| == 2 && cs[i][0] == Escape
      {
        assert cs[i] == rest[i];
      }
    }
  }

  /**
   * A chunk between matches holds no escape byte, except a lone 0xFF that
   * is the very last byte of the input (it has no follower, so the pattern
   * does not match it).
   */
  ghost predicate EscapeOnlyAtEnd(d: seq<byte>, cs: seq<seq<byte>>)
  {
    forall i, j :: 0 <= i < |cs| && i % 2 == 0 && 0 <= j < |cs[i]| && cs[i][j] == Escape ==>
      i == |cs| - 1 && j == |cs[i]| - 1 && d != [] && d[|d| - 1] == Escape
  }

  lemma {:induction false} SplitEscapes(d: seq<byte>)
    ensures EscapeOnlyAtEnd(d, Split(d))
    decreases |d|
  {
    var cs := Split(d);
    if |d| >= 2 && d[0] == Escape {
      SplitEscapes(d[2..]);
      var rest := Split(d[2..]);
      assert cs == [[], d[..2]] + rest;
      forall i, j | 0 <= i < |cs| && i % 2 == 0 && 0 <= j < |cs[i]| && cs[i][j] == Escape
        ensures i == |cs| - 1 && j == |cs[i]| - 1 && d[|d| - 1] == Escape
      {
        assert i >= 2 && cs[i] == rest[i - 2];
        assert rest[i - 2][j] == Escape;
        assert d[2..][|d| - 3] == d[|d| - 1];
      }
    } else if d != [] {
      SplitEscapes(d[1..]);
      var rest := Split(d[1..]);
      assert cs == [[d[0]] + rest[0]] + rest[1..];
      forall i, j | 0 <= i < |cs| && i % 2 == 0 && 0 <= j < |cs[i]| && cs[i][j] == Escape
        ensures i == |cs| - 1 && j == |cs[i]| - 1 && d[|d| - 1] == Escape
      {
        if i == 0 {
          if j == 0 {
            assert d[0] == Escape && |d| == 1;
            assert d[1..] == [] && rest == [[]];
          } else {
            assert rest[0][j - 1] == Escape;
            assert d[1..][|d| - 2] == d[|d| - 1];
          }
        } else {
          assert cs[i] == rest[i];
          assert rest[i][j] == Escape;
          assert d[1..][|d| - 2] == d[|d| - 1];
        }
      }
    }
  }

  /** The first chunk starts with the escape byte only when the input is a lone 0xFF. */
  lemma SplitHead(d: seq<byte>)
    ensures Split(d)[0] != [] && Split(d)[0][0] == Escape ==> d == [Escape]
  {
    if |d| >= 2 && d[0] == Escape {
      assert Split(d)[0] == [];
    } else if d != [] {
      assert Split(d)[0][0] == d[0];
    }
  }

  /**
   * How decode tags a chunk (server.py:28-31): a chunk that starts with
   * the escape byte is a command whose payload is the rest of the chunk,
   * any other chunk is text.  Either way nothing of the chunk is lost.
   */
  function Label(chunk: seq<byte>): (p: Piece)
    ensures Wire(p) == chunk
  {
    if chunk != [] && chunk[0] == Escape then
      assert chunk == [Escape] + chunk[1..];
      Cmd(chunk[1..])
    else Text(chunk)
  }

  function Labels(cs: seq<seq<byte>>): seq<Piece>
  {
    seq(|cs|, i requires 0 <= i < |cs| => Label(cs[i]))
  }

  lemma LabelsAppend(a: seq<seq<byte>>, b: seq<seq<byte>>)
    ensures Labels(a + b) == Labels(a) + Labels(b)
  {
    forall i | 0 <= i < |a + b|
      ensures Labels(a + b)[i] == (Labels(a) + Labels(b))[i]
    {
      if i >= |a| {
        assert (a + b)[i] == b[i - |a|];
      }
    }
  }

  lemma LabelsTail(cs: seq<seq<byte>>)
    requires cs != []
    ensures Labels(cs) == [Label(cs[0])] + Labels(cs[1..])
  {
    Seqs.HeadTail(cs);
    LabelsAppend([cs[0]], cs[1..]);
  }

  /**
   * decode (server.py:26-31) before the UTF-8 decoding of text pieces: the
   * chunks of ESCAPE_RE.split(data), each tagged by Label.  There is always
   * at least one piece, and each piece, put back on the wire, is its chunk.
   */
  function Decode(d: seq<byte>): (r: seq<Piece>)
    ensures r != []
    ensures |r| == |Split(d)| && forall i :: 0 <= i < |r| ==> Wire(r[i]) == Split(d)[i]
  {
    Labels(Split(d))
  }

  /**
   * The shape of decode's output: a one-byte command at every odd
   * position and text at every even one, text first and text last, except
   * that a lone 0xFF ending the input comes last as a command with no payload.
   */
  ghost predicate Alternating(ps: seq<Piece>)
  {
    && |ps| % 2 == 1
    && forall i :: 0 <= i < |ps| ==>
         if i % 2 == 1 then ps[i].Cmd? && |ps[i].payload| == 1
         else ps[i].Text? || (i == |ps| - 1 && ps[i] == Cmd([]))
  }

  lemma DecodeAlternates(d: seq<byte>)
    ensures Alternating(Decode(d))
  {
    var cs := Split(d);
    var ps := Decode(d);
    SplitAlternates(d);
    SplitEscapes(d);
    forall i | 0 <= i < |ps|
      ensures if i % 2 == 1 then ps[i].Cmd? && |ps[i].payload| == 1
              else ps[i].Text? || (i == |ps| - 1 && ps[i] == Cmd([]))
    {
      assert ps[i] == Label(cs[i]);
      if i % 2 == 0 && cs[i] != [] && cs[i][0] == Escape {
        assert i == |cs| - 1 && 0 == |cs[i]| - 1;
        assert cs[i][1..] == [];
      }
    }
  }

  /** The wire bytes a piece came from. */
  function Wire(p: Piece): seq<byte>
  {
    match p
    case Text(t) => t
    case Cmd(c) => [Escape] + c
  }

  function Flatten(ps: seq<Piece>): seq<byte>
  {
    if ps == [] then [] else Wire(ps[0]) + Flatten(ps[1..])
  }

  /** Reads every command back as its payload: the inverse of the doubling. */
  function Unframe(ps: seq<Piece>): seq<byte>
  {
    if ps == [] then []
    else (match ps[0] case Text(t) => t case Cmd(c) => c) + Unframe(ps[1..])
  }

  lemma {:induction false} UnframeAppend(a: seq<Piece>, b: seq<Piece>)
    ensures Unframe(a + b) == Unframe(a) + Unframe(b)
  {
    if a == [] {
      assert a + b == b;
    } else {
      assert (a + b)[0] == a[0] && (a + b)[1..] == a[1..] + b;
      UnframeAppend(a[1..], b);
    }
  }

  lemma FlattenCons(p: Piece, ps: seq<Piece>)
    ensures Flatten([p] + ps) == Wire(p) + Flatten(ps)
  {
    assert ([p] + ps)[1..] == ps;
  }

  lemma {:induction false} FlattenLabels(cs: seq<seq<byte>>)
    ensures Flatten(Labels(cs)) == Join(cs)
  {
    if cs != [] {
      FlattenLabels(cs[1..]);
      LabelsTail(cs);
      FlattenCons(Label(cs[0]), Labels(cs[1..]));
    }
  }

  /** decode partitions its input: the pieces, put back on the wire, are exactly the input. */
  lemma DecodePartitions(d: seq<byte>)
    ensures Flatten(Decode(d)) == d
  {
    FlattenLabels(Split(d));
    SplitPartitions(d);
  }

  /**
   * A text piece never holds an escape byte, not even as its first byte,
   * except a lone 0xFF that is the very last byte of the input and of the
   * last piece.
   */
  lemma TextPiecesEscapeFree(d: seq<byte>)
    ensures forall i, j :: 0 <= i < |Decode(d)| && Decode(d)[i].Text? &&
                           0 <= j < |Decode(d)[i].bytes| && Decode(d)[i].bytes[j] == Escape ==>
                           0 < j && i == |Decode(d)| - 1 && j == |Decode(d)[i].bytes| - 1 &&
                           d != [] && d[|d| - 1] == Escape
  {
    var cs := Split(d);
    var ps := Decode(d);
    SplitAlternates(d);
    SplitEscapes(d);
    forall i, j | 0 <= i < |ps| && ps[i].Text? && 0 <= j < |ps[i].bytes| && ps[i].bytes[j] == Escape
      ensures 0 < j && i == |ps| - 1 && j == |ps[i].bytes| - 1 && d[|d| - 1] == Escape
    {
      assert ps[i] == Label(cs[i]) && ps[i].bytes == cs[i];
      assert cs[i][j] == Escape && i % 2 == 0;
    }
  }

  lemma DecodeEmpty()
    ensures Decode([]) == [Text([])]
  {
    assert Split([]) == [[]];
  }

  /** An escape and its follower at the front come off as an empty text piece and a one-byte command. */
  lemma DecodeEscapePair(c: byte, e: seq<byte>)
    ensures Decode([Escape, c] + e) == [Text([]), Cmd([c])] + Decode(e)
  {
    var d := [Escape, c] + e;
    assert d[..2] == [Escape, c] && d[2..] == e;
    LabelsAppend([[], [Escape, c]], Split(e));
    assert [Escape, c][1..] == [c];
    assert Labels([[], [Escape, c]]) == [Text([]), Cmd([c])];
  }

  /** A byte other than the escape at the front joins the first text piece, unless what follows is a lone 0xFF. */
  lemma DecodeLeadingText(b: byte, e: seq<byte>)
    requires b != Escape && e != [Escape]
    ensures Decode(e)[0].Text?
    ensures Decode([b] + e) == [Text([b] + Decode(e)[0].bytes)] + Decode(e)[1..]
  {
    var d := [b] + e;
    assert d[1..] == e;
    var cs := Split(e);
    SplitHead(e);
    LabelsTail(cs);
    LabelsAppend([[b] + cs[0]], cs[1..]);
  }

  /**
   * A lone 0xFF at the end of the input is a command with an empty
   * payload, whether it stands alone or follows a command.
   */
  lemma DecodeTrailingEscape(c: byte)
    ensures Decode([Escape]) == [Cmd([])]
    ensures Decode(Command(c) + [Escape]) == [Text([]), Cmd([c]), Cmd([])]
  {
    var d: seq<byte> := [Escape];
    var rest := Split(d[1..]);
    assert d[1..] == [] && rest == [[]];
    assert rest[0] == [] && rest[1..] == [];
    assert [d[0]] + rest[0] == d;
    assert Split(d) == [d];
    assert Labels([[Escape]]) == [Cmd([])];
    DecodeEscapePair(c, [Escape]);
  }

  /** encode never produces a lone 0xFF: every escape byte it writes is doubled. */
  lemma EncodeNotLoneEscape(t: seq<byte>)
    ensures Encode(t) != [Escape]
  {
    if t != [] {
      EncodeCons(t);
      if t[0] == Escape {
        assert |Encode(t)| >= 2;
      } else {
        assert Encode(t)[0] == t[0];
      }
    }
  }

  lemma {:induction false} SplitEscapeFree(d: seq<byte>)
    requires Escape !in d
    ensures Split(d) == [d]
  {
    if d != [] {
      SplitEscapeFree(d[1..]);
      assert [d[0]] + d[1..] == d;
    }
  }

  /** Input without an escape byte decodes to a single text piece. */
  lemma DecodeEscapeFree(d: seq<byte>)
    requires Escape !in d
    ensures Decode(d) == [Text(d)]
  {
    SplitEscapeFree(d);
    assert Labels([d]) == [Label(d)];
  }

  /** encode leaves escape-free bytes as they are. */
  lemma {:induction false} EncodeEscapeFree(t: seq<byte>)
    requires Escape !in t
    ensures Encode(t) == t
  {
    if t != [] {
      EncodeEscapeFree(t[1..]);
      assert [t[0]] + t[1..] == t;
    }
  }

  /**
   * decode undoes encode only when every command it reports is read back
   * as its payload: each doubled 0xFF comes out as a command (see
   * EncodedCommandsAreEscapes) whose payload restores the byte.
   */
  lemma {:induction false} DecodeOfEncode(t: seq<byte>)
    ensures Unframe(Decode(Encode(t))) == t
  {
    if t != [] {
      DecodeOfEncode(t[1..]);
      DecodeOfEncodeStep(t);
    }
  }

  lemma DecodeOfEncodeStep(t: seq<byte>)
    requires t != []
    requires Unframe(Decode(Encode(t[1..]))) == t[1..]
    ensures Unframe(Decode(Encode(t))) == t
  {
    var e := Encode(t[1..]);
    var h := t[0];
    EncodeCons(t);
    if h == Escape {
      calc {
        Unframe(Decode(Encode(t)));
        Unframe(Decode([Escape, Escape] + e));
        { DecodeEscapePair(Escape, e); }
        Unframe([Text([]), Cmd([Escape])] + Decode(e));
        { UnframeAppend([Text([]), Cmd([Escape])], Decode(e)); UnframeDoubled(); }
        [Escape] + Unframe(Decode(e));
      }
    } else {
      calc {
        Unframe(Decode(Encode(t)));
        Unframe(Decode([h] + e));
        { EncodeNotLoneEscape(t[1..]); UnframeDecodeText(h, e); }
        [h] + Unframe(Decode(e));
      }
    }
    Seqs.HeadTail(t);
  }

  lemma UnframeDoubled()
    ensures Unframe([Text([]), Cmd([Escape])]) == [Escape]
  {
    var ps := [Text([]), Cmd([Escape])];
    assert Unframe([Cmd([Escape])]) == [Escape] by {
      assert [Cmd([Escape])][1..] == [];
    }
    assert ps[0] == Text([]) && ps[1..] == [Cmd([Escape])];
    assert Unframe(ps) == [] + Unframe(ps[1..]);
  }

  lemma EncodeCons(t: seq<byte>)
    requires t != []
    ensures Encode(t) == EscapeByte(t[0]) + Encode(t[1..])
  {
  }

  lemma UnframeDecodeText(b: byte, e: seq<byte>)
    requires b != Escape && e != [Escape]
    ensures Unframe(Decode([b] + e)) == [b] + Unframe(Decode(e))
  {
    var rest := Decode(e);
    var tail := rest[1..];
    var t := rest[0].bytes;
    assert rest[0] == Text(t) && Decode([b] + e) == [Text([b] + t)] + tail by {
      DecodeLeadingText(b, e);
    }
    assert Unframe(rest) == t + Unframe(tail) by {
      Seqs.HeadTail(rest);
      UnframeAppend([rest[0]], tail);
      UnframeSingle(rest[0]);
    }
    UnframeAppend([Text([b] + t)], tail);
    UnframeSingle(Text([b] + t));
    Seqs.AppendAssoc([b], t, Unframe(tail));
  }

  lemma UnframeSingle(p: Piece)
    ensures Unframe([p]) == (match p case Text(t) => t case Cmd(c) => c)
  {
    assert [p][1..] == [];
  }

  /**
   * Every command piece in ps carries the escape byte itself: the only
   * commands decode finds in encoded text are the doubled escapes.
   */
  predicate EscapesOnly(ps: seq<Piece>)
  {
    forall i :: 0 <= i < |ps| && ps[i].Cmd? ==> ps[i].payload == [Escape]
  }

  lemma EscapesOnlyAppend(a: seq<Piece>, b: seq<Piece>)
    requires EscapesOnly(a) && EscapesOnly(b)
    ensures EscapesOnly(a + b)
  {
    forall i | 0 <= i < |a + b| && (a + b)[i].Cmd?
      ensures (a + b)[i].payload == [Escape]
    {
      if i >= |a| {
        assert (a + b)[i] == b[i - |a|];
      }
    }
  }

  lemma EscapesOnlyTail(ps: seq<Piece>)
    requires ps != [] && EscapesOnly(ps)
    ensures EscapesOnly(ps[1..])
  {
    forall i | 0 <= i < |ps[1..]| && ps[1..][i].Cmd?
      ensures ps[1..][i].payload == [Escape]
    {
      assert ps[1..][i] == ps[i + 1];
    }
  }

  /** Every command piece in decode(encode(t)) is a doubled escape, never another command. */
  lemma {:induction false} EncodedCommandsAreEscapes(t: seq<byte>)
    ensures EscapesOnly(Decode(Encode(t)))
  {
    if t != [] {
      var e := Encode(t[1..]);
      EncodedCommandsAreEscapes(t[1..]);
      var rest := Decode(e);
      EncodeCons(t);
      if t[0] == Escape {
        assert Encode(t) == [Escape, Escape] + e;
        DecodeEscapePair(Escape, e);
        assert EscapesOnly([Text([]), Cmd([Escape])]);
        EscapesOnlyAppend([Text([]), Cmd([Escape])], rest);
      } else {
        assert Encode(t) == [t[0]] + e;
        EncodeNotLoneEscape(t[1..]);
        DecodeLeadingText(t[0], e);
        EscapesOnlyTail(rest);
        EscapesOnlyAppend([Text([t[0]] + rest[0].bytes)], rest[1..]);
      }
    }
  }

  /** What a client that sends text through encode delivers: one text piece, unchanged. */
  lemma TextRoundTrip(s: string)
    ensures Encode(Utf8(s)) == Utf8(s)
    ensures Decode(Encode(Utf8(s))) == [Text(Utf8(s))]
  {
    Utf8NeverEscapes(s);
    EncodeEscapeFree(Utf8(s));
    DecodeEscapeFree(Utf8(s));
  }

  // ---------------------------------------------------------------------
  // ENTER to CR+LF (server.py:188-189)
  // ---------------------------------------------------------------------

  /** `chunk.replace('\n', '\r\n')` on the bytes of a text piece. */
  function CrLf(t: seq<byte>): (r: seq<byte>)
    ensures |r| == |t| + multiset(t)[LF]
  {
    if t == [] then []
    else
      assert t == [t[0]] + t[1..];
      (if t[0] == LF then [CR, LF] else [t[0]]) + CrLf(t[1..])
  }

  /** Every LF in r comes straight after a CR, so r begins with no LF. */
  predicate LfAfterCr(r: seq<byte>)
  {
    (r != [] ==> r[0] != LF) && forall i :: 0 < i < |r| && r[i] == LF ==> r[i - 1] == CR
  }

  /** Putting a CR LF pair, or a single byte other than LF, in front keeps LfAfterCr. */
  lemma LfAfterCrPrepend(h: seq<byte>, r: seq<byte>)
    requires h == [CR, LF] || (|h| == 1 && h[0] != LF)
    requires LfAfterCr(r)
    ensures LfAfterCr(h + r)
  {
    forall i | 0 < i < |h + r| && (h + r)[i] == LF
      ensures (h + r)[i - 1] == CR
    {
      if i >= |h| {
        assert (h + r)[i] == r[i - |h|];
        assert i > |h|;
        assert (h + r)[i - 1] == r[i - 1 - |h|];
      }
    }
  }

  /** CrLf puts a CR before every LF it emits. */
  lemma {:induction false} CrLfPairs(t: seq<byte>)
    ensures LfAfterCr(CrLf(t))
  {
    if t != [] {
      CrLfPairs(t[1..]);
      LfAfterCrPrepend(if t[0] == LF then [CR, LF] else [t[0]], CrLf(t[1..]));
    }
  }

  /** `replace('\r\n', '\n')`, scanning left to right. */
  function CollapseCrLf(u: seq<byte>): seq<byte>
  {
    if |u| >= 2 && u[0] == CR && u[1] == LF then [LF] + CollapseCrLf(u[2..])
    else if u == [] then []
    else [u[0]] + CollapseCrLf(u[1..])
  }

  /** The translation loses nothing: collapsing every CR LF recovers the text, even one that held CR LF already. */
  lemma {:induction false} CrLfInverse(t: seq<byte>)
    ensures CollapseCrLf(CrLf(t)) == t
  {
    if t != [] {
      CrLfInverse(t[1..]);
      CrLfPairs(t[1..]);
      var r := CrLf(t[1..]);
      assert CrLf(t) == (if t[0] == LF then [CR, LF] else [t[0]]) + r by {
        assert t == [t[0]] + t[1..];
      }
      if t[0] == LF {
        CollapsePair(r);
      } else {
        CollapseSingle(t[0], r);
      }
      assert t == [t[0]] + t[1..];
    }
  }

  lemma CollapsePair(r: seq<byte>)
    ensures CollapseCrLf([CR, LF] + r) == [LF] + CollapseCrLf(r)
  {
    assert ([CR, LF] + r)[2..] == r;
  }

  lemma CollapseSingle(b: byte, r: seq<byte>)
    requires b != CR || r == [] || r[0] != LF
    ensures CollapseCrLf([b] + r) == [b] + CollapseCrLf(r)
  {
    assert ([b] + r)[1..] == r;
  }
}
