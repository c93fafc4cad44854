/**
 * Slicing a byte stream into messages by the documented wire layout: each
 * message starts with its 4-byte total length, so a reader can cut complete
 * messages off the front of what it has received and keep the rest.
 */
module Framing {
  import opened Endian
  import opened Msg

  /** The bytes of `msgs` written back to back. */
  function Serialise(msgs: seq<Message>): seq<byte>
  {
    if |msgs| == 0 then [] else msgs[0].buf + Serialise(msgs[1..])
  }

  /** `s` does not start with a complete message: too short for a header, a
      prefix smaller than the header, or fewer bytes than the prefix says.
      The middle case is a choice of this model (the reading loop's body is
      not part of it): a prefix below 6 cannot describe a message, and the
      model treats it as "wait for more", which blocks the stream for good
      (see `ShortPrefixStalls`). */
  predicate Incomplete(s: seq<byte>)
  {
    |s| < HEADER_SIZE || Decode4(s[..4]) < HEADER_SIZE || |s| < Decode4(s[..4])
  }

  datatype Parsed = Parsed(msgs: seq<Message>, rest: seq<byte>)

  /** Cuts every complete message off the front of `s`. */
  function Parse(s: seq<byte>): (p: Parsed)
    ensures forall i :: 0 <= i < |p.msgs| ==> WellFramed(p.msgs[i])
    ensures Incomplete(p.rest)
    decreases |s|
  {
    if Incomplete(s) then Parsed([], s)
    else
      var len := Decode4(s[..4]);
      var head := Message(s[..len]);
      assert head.buf[..4] == s[..4];
      var tail := Parse(s[len..]);
      var p := Parsed([head] + tail.msgs, tail.rest);
      p
  }

  /** Nothing is lost or reordered: the cut messages followed by the leftover
      are the original bytes. */
  lemma {:induction false} ParseReassembles(s: seq<byte>)
    ensures Serialise(Parse(s).msgs) + Parse(s).rest == s
    decreases |s|
  {
    if !Incomplete(s) {
      var len := Decode4(s[..4]);
      var head := Message(s[..len]);
      var tail := Parse(s[len..]);
      ParseStep(s, len);
      ParseReassembles(s[len..]);
      var msgs := [head] + tail.msgs;
      assert msgs[0] == head && msgs[1..] == tail.msgs;
      assert Serialise(msgs) == head.buf + Serialise(tail.msgs);
      ConcatAssoc(head.buf, Serialise(tail.msgs), tail.rest);
      assert s == s[..len] + s[len..];
    }
  }

  /** Reading back a stream of well-framed messages followed by an
      incomplete tail gives back exactly those messages and that tail. */
  lemma {:induction false} ParseSerialise(msgs: seq<Message>, rest: seq<byte>)
    requires forall i :: 0 <= i < |msgs| ==> WellFramed(msgs[i])
    requires Incomplete(rest)
    ensures Parse(Serialise(msgs) + rest) == Parsed(msgs, rest)
  {
    if |msgs| > 0 {
      var m := msgs[0];
      var s := Serialise(msgs) + rest;
      assert s == m.buf + (Serialise(msgs[1..]) + rest);
      assert s[..4] == m.buf[..4];
      assert s[..|m.buf|] == m.buf;
      assert s[|m.buf|..] == Serialise(msgs[1..]) + rest;
      ParseSerialise(msgs[1..], rest);
      assert [m] + msgs[1..] == msgs;
    }
  }

  lemma ConcatAssoc<T>(x: seq<T>, y: seq<T>, z: seq<T>)
    ensures x + (y + z) == (x + y) + z
  {
  }

  /** One step of `Parse` on a stream that starts with a complete message. */
  lemma ParseStep(s: seq<byte>, len: nat)
    requires !Incomplete(s) && len == Decode4(s[..4])
    ensures Parse(s) == Parsed([Message(s[..len])] + Parse(s[len..]).msgs, Parse(s[len..]).rest)
  {
  }

  /** Bytes that arrive later never change the messages already cut: parsing
      `a + b` is parsing `a`, then parsing its leftover followed by `b`. */
  lemma {:induction false} ParseAppend(a: seq<byte>, b: seq<byte>)
    ensures Parse(a + b).msgs == Parse(a).msgs + Parse(Parse(a).rest + b).msgs
    ensures Parse(a + b).rest == Parse(Parse(a).rest + b).rest
    decreases |a|
  {
    if Incomplete(a) {
      assert Parse(a) == Parsed([], a);
    } else {
      var len := Decode4(a[..4]);
      var ab := a + b;
      assert ab[..4] == a[..4];
      assert ab[..len] == a[..len];
      assert ab[len..] == a[len..] + b;
      var head := Message(a[..len]);
      ParseStep(a, len);
      ParseStep(ab, len);
      var ta := Parse(a[len..]);
      var tab := Parse(a[len..] + b);
      var tail := Parse(ta.rest + b);
      ParseAppend(a[len..], b);
      assert tab.msgs == ta.msgs + tail.msgs;
      assert Parse(ab[len..]) == tab;
      assert Parse(ab).msgs == [head] + tab.msgs;
      assert Parse(a).msgs == [head] + ta.msgs;
      assert Parse(a).rest == ta.rest;
      ConcatAssoc([head], ta.msgs, tail.msgs);
      assert Parse(ab).rest == tail.rest;
    }
  }

  /** A stream whose first prefix is below the header size never yields a
      message, whatever arrives after it: every later byte stays buffered. */
  lemma ShortPrefixStalls(s: seq<byte>, more: seq<byte>)
    requires |s| >= HEADER_SIZE && Decode4(s[..4]) < HEADER_SIZE
    ensures Parse(s + more) == Parsed([], s + more)
  {
    assert (s + more)[..4] == s[..4];
  }

  /** A concrete instance: prefix 0, type 8, urgent. */
  lemma ZeroPrefixStalls(more: seq<byte>)
    ensures Parse([0, 0, 0, 0, 8, 1] + more).msgs == []
  {
    ShortPrefixStalls([0, 0, 0, 0, 8, 1], more);
  }
}
