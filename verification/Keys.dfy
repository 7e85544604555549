/** The streaming key decoder of the menu (internal/tui/keys.go): a stream is read in chunks cut anywhere, and a trailing partial
    escape sequence is held until it grows or is flushed. */
module Keys {
  newtype Byte = x: int | 0 <= x < 256

  const ESC: Byte := 0x1b
  const BRACKET: Byte := 91
  const LETTER_O: Byte := 79
  const LETTER_A: Byte := 65
  const LETTER_B: Byte := 66
  const FIVE: Byte := 53
  const SIX: Byte := 54
  const TILDE: Byte := 126

  datatype Key = Unknown | Up | Down | PgUp | PgDn | Enter | Escape | Space | Quit | CtrlC

  /** A byte that can follow ESC in a bound sequence. */
  predicate Opens(b: Byte) {
    b == BRACKET || b == LETTER_O
  }

  function PlainKey(b: Byte): Key {
    if b == 13 || b == 10 then Enter
    else if b == 32 then Space
    else if b == 113 then Quit
    else if b == 3 then CtrlC
    else Unknown
  }

  /** `decodeEscape`: the key at the start of `p` and the bytes it takes. */
  function DecodeEscape(p: seq<Byte>): (r: (Key, nat))
    requires p != [] && p[0] == ESC
    ensures 1 <= r.1 <= |p|
  {
    if |p| == 1 || !Opens(p[1]) then (Escape, 1)
    else if |p| == 2 then (Unknown, 2)
    else if p[2] == LETTER_A then (Up, 3)
    else if p[2] == LETTER_B then (Down, 3)
    else if (p[2] == FIVE || p[2] == SIX) && p[1] == BRACKET && |p| > 3 && p[3] == TILDE then
      (if p[2] == FIVE then PgUp else PgDn, 4)
    else (Unknown, 3)
  }

  /** What `decodeComplete` makes of a whole stream. */
  function Batch(p: seq<Byte>): seq<Key>
    decreases |p|
  {
    if p == [] then []
    else if p[0] == ESC then [DecodeEscape(p).0] + Batch(p[DecodeEscape(p).1..])
    else [PlainKey(p[0])] + Batch(p[1..])
  }

  lemma BatchStep(p: seq<Byte>, i: nat, n: nat, k: Key, keys: seq<Key>)
    requires i < |p| && i + n <= |p|
    requires (k, n) == if p[i] == ESC then DecodeEscape(p[i..]) else (PlainKey(p[i]), 1)
    ensures keys + Batch(p[i..]) == (keys + [k]) + Batch(p[i + n..])
  {
    hide DecodeEscape, PlainKey;
    assert p[i..][n..] == p[i + n..];
  }

  /** `decodeComplete`. */
  method DecodeComplete(p: seq<Byte>) returns (keys: seq<Key>)
    ensures keys == Batch(p)
  {
    hide DecodeEscape, PlainKey, Batch;
    keys := [];
    var i := 0;
    assert p[0..] == p;
    while i < |p|
      invariant 0 <= i <= |p| && keys + Batch(p[i..]) == Batch(p)
    {
      var k, n := PlainKey(p[i]), 1;
      if p[i] == ESC {
        var r := DecodeEscape(p[i..]);
        k, n := r.0, r.1;
      }
      BatchStep(p, i, n, k, keys);
      keys := keys + [k];
      i := i + n;
    }
    NoKeys(p[i..]);
  }

  lemma NoKeys(p: seq<Byte>)
    requires |p| == 0
    ensures Batch(p) == []
  {}

  /** `incompleteEscape`: the sequence could still grow into a bound one. */
  predicate Incomplete(s: seq<Byte>) {
    || |s| == 1
    || (|s| == 2 && Opens(s[1]))
    || (|s| == 3 && s[1] == BRACKET && (s[2] == FIVE || s[2] == SIX))
  }

  /** `bytes.LastIndexByte(p, ESC)`. */
  function LastEsc(p: seq<Byte>): (i: int)
    ensures -1 <= i < |p| && (i >= 0 ==> p[i] == ESC)
    ensures forall j | i < j < |p| :: p[j] != ESC
  {
    if p == [] then -1 else if p[|p| - 1] == ESC then |p| - 1 else LastEsc(p[..|p| - 1])
  }

  /** Where the bytes that are held back start. */
  function HoldAt(buf: seq<Byte>): (j: nat)
    ensures j <= |buf|
  {
    var i := LastEsc(buf);
    if i >= 0 && Incomplete(buf[i..]) then i else |buf|
  }

  class Decoder {
    var pending: seq<Byte>

    constructor ()
      ensures pending == []
    {
      pending := [];
    }

    method Decode(p: seq<Byte>) returns (keys: seq<Key>)
      modifies this
      ensures var buf := old(pending) + p; keys == Batch(buf[..HoldAt(buf)]) && pending == buf[HoldAt(buf)..]
    {
      var buf := pending + p;
      pending := [];
      var i := LastEsc(buf);
      if i >= 0 && Incomplete(buf[i..]) {
        pending := buf[i..];
        buf := buf[..i];
      } else {
        assert buf[..|buf|] == buf;
      }
      keys := DecodeComplete(buf);
    }

    method Flush() returns (keys: seq<Key>)
      modifies this
      ensures keys == Batch(old(pending)) && pending == []
    {
      var p := pending;
      pending := [];
      keys := DecodeComplete(p);
    }
  }

  /** The keys of the chunks that are left, and of the flush after them, once `held` is pending. */
  function StreamFrom(held: seq<Byte>, chunks: seq<seq<Byte>>): seq<Key>
    decreases |chunks|
  {
    if chunks == [] then Batch(held)
    else
      var buf := held + chunks[0];
      Batch(buf[..HoldAt(buf)]) + StreamFrom(buf[HoldAt(buf)..], chunks[1..])
  }

  function Stream(chunks: seq<seq<Byte>>): seq<Key> {
    StreamFrom([], chunks)
  }

  /** A stream read to its end: a decoder fed read by read and flushed. */
  method DecodeReads(chunks: seq<seq<Byte>>) returns (keys: seq<Key>)
    ensures keys == Stream(chunks)
  {
    var d := new Decoder();
    keys := [];
    for i := 0 to |chunks|
      invariant keys + StreamFrom(d.pending, chunks[i..]) == Stream(chunks)
    {
      assert chunks[i..][0] == chunks[i] && chunks[i..][1..] == chunks[i + 1..];
      var more := d.Decode(chunks[i]);
      keys := keys + more;
    }
    var last := d.Flush();
    keys := keys + last;
  }

  function Concat(chunks: seq<seq<Byte>>): seq<Byte> {
    if chunks == [] then [] else chunks[0] + Concat(chunks[1..])
  }
}
