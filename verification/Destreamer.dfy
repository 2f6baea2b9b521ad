// JSONDestreamer of pox-log.py: messages are cut out of a stream of text that
// arrives in arbitrary pieces.
module Destreamer {
  import opened Text

  // raw_decode: a ValueError, or a message and the offset just after its text.
  datatype Decoded<M> = ValueError | Message(msg: M, off: nat)

  type Decoder<!M> = string -> Decoded<M>

  // str.lstrip()
  function LStrip(s: string): string {
    if s != [] && Whitespace(s[0]) then LStrip(s[1..]) else s
  }

  // A decoded message takes up some text, and lies within the buffer.
  ghost predicate Consumes<M(!new)>(d: Decoder<M>) {
    forall b :: d(b).Message? ==> 0 < d(b).off <= |b|
  }

  // Success depends only on the text up to the message's end: text that follows
  // does not change it.
  ghost predicate PrefixDetermined<M(!new)>(d: Decoder<M>) {
    forall b, more :: d(b).Message? ==> d(b + more) == d(b)
  }

  datatype State<M> = State(buf: string, received: seq<M>)

  // The buffer after new data arrives: leading blanks of an empty buffer are dropped.
  function Attach(buf: string, data: string): string {
    if buf == [] then LStrip(data) else buf + data
  }

  /** Exactly the leading blanks go. */
  lemma {:induction false} LStripDrops(s: string)
    ensures |LStrip(s)| <= |s|
    ensures var n := |s| - |LStrip(s)|;
      LStrip(s) == s[n..] && (forall i :: 0 <= i < n ==> Whitespace(s[i])) && (n < |s| ==> !Whitespace(s[n]))
  {
    if s != [] && Whitespace(s[0]) {
      LStripDrops(s[1..]);
    }
  }

  // Decode as many messages as the buffer holds.
  ghost function Drain<M(!new)>(d: Decoder<M>, st: State<M>): State<M>
    requires Consumes(d)
    decreases |st.buf|
  {
    if st.buf == [] || d(st.buf).ValueError? then st
    else
      LStripDrops(st.buf[d(st.buf).off..]);
      Drain(d, State(LStrip(st.buf[d(st.buf).off..]), st.received + [d(st.buf).msg]))
  }

  ghost function Pushed<M(!new)>(d: Decoder<M>, st: State<M>, data: string): State<M>
    requires Consumes(d)
  {
    Drain(d, State(Attach(st.buf, data), st.received))
  }

  ghost function PushAll<M(!new)>(d: Decoder<M>, st: State<M>, chunks: seq<string>): State<M>
    requires Consumes(d)
    decreases |chunks|
  {
    if chunks == [] then st else PushAll(d, Pushed(d, st, chunks[0]), chunks[1..])
  }

  function Concat(chunks: seq<string>): string {
    if chunks == [] then [] else chunks[0] + Concat(chunks[1..])
  }

  lemma {:induction false} LStripAppend(s: string, t: string)
    ensures LStrip(s + t) == Attach(LStrip(s), t)
  {
    if s == [] {
      assert s + t == t;
    } else if Whitespace(s[0]) {
      assert (s + t)[1..] == s[1..] + t;
      LStripAppend(s[1..], t);
    }
  }

  lemma AttachTwice(buf: string, a: string, b: string)
    ensures Attach(Attach(buf, a), b) == Attach(buf, a + b)
  {
    LStripAppend(a, b);
    assert buf + a + b == buf + (a + b);
  }

  /** Draining before more data arrives loses nothing: what follows is as if the data had been
      there from the start. */
  lemma {:induction false} DrainThenAttach<M(!new)>(d: Decoder<M>, st: State<M>, data: string)
    requires Consumes(d) && PrefixDetermined(d)
    ensures var s := Drain(d, st);
      Drain(d, State(Attach(s.buf, data), s.received)) == Drain(d, State(Attach(st.buf, data), st.received))
    decreases |st.buf|
  {
    if st.buf != [] && d(st.buf).Message? {
      var rest := st.buf[d(st.buf).off..];
      LStripDrops(rest);
      DrainThenAttach(d, State(LStrip(rest), st.received + [d(st.buf).msg]), data);
      assert d(st.buf + data) == d(st.buf);
      assert (st.buf + data)[d(st.buf).off..] == rest + data;
      LStripAppend(rest, data);
    }
  }

  lemma PushSplit<M(!new)>(d: Decoder<M>, st: State<M>, a: string, b: string)
    requires Consumes(d) && PrefixDetermined(d)
    ensures Pushed(d, Pushed(d, st, a), b) == Pushed(d, st, a + b)
  {
    DrainThenAttach(d, State(Attach(st.buf, a), st.received), b);
    AttachTwice(st.buf, a, b);
  }

  lemma {:induction false} PushAllIsPush<M(!new)>(d: Decoder<M>, st: State<M>, chunks: seq<string>)
    requires Consumes(d) && PrefixDetermined(d) && chunks != []
    ensures PushAll(d, st, chunks) == Pushed(d, st, Concat(chunks))
    decreases |chunks|
  {
    if |chunks| == 1 {
      assert chunks[1..] == [] && Concat(chunks) == chunks[0];
    } else {
      PushAllIsPush(d, Pushed(d, st, chunks[0]), chunks[1..]);
      PushSplit(d, st, chunks[0], Concat(chunks[1..]));
    }
  }

  /** However a text is cut into chunks, the same messages are received and the same text is
      retained. */
  lemma ChunkingDoesNotMatter<M(!new)>(d: Decoder<M>, chunks: seq<string>, chunks': seq<string>)
    requires Consumes(d) && PrefixDetermined(d) && Concat(chunks) == Concat(chunks')
    ensures PushAll(d, State([], []), chunks) == PushAll(d, State([], []), chunks')
  {
    if chunks != [] {
      PushAllIsPush(d, State([], []), chunks);
    }
    if chunks' != [] {
      PushAllIsPush(d, State([], []), chunks');
    }
    assert Pushed(d, State([], []), "") == State([], []);
  }

  // --- a stream of messages ---

  // The text of a message, and the blanks behind it.
  datatype Piece<M> = Piece(text: string, msg: M, gap: string)

  predicate Blank(s: string) {
    forall i :: 0 <= i < |s| ==> Whitespace(s[i])
  }

  // Undecodable text that a message stream may end in.
  predicate Undecodable<M>(d: Decoder<M>, tail: string) {
    tail != [] ==> !Whitespace(tail[0]) && d(tail).ValueError?
  }

  predicate Encodes<M(==)>(d: Decoder<M>, p: Piece<M>) {
    p.text != [] && !Whitespace(p.text[0]) && d(p.text) == Message(p.msg, |p.text|) && Blank(p.gap)
  }

  function Rendered<M>(pieces: seq<Piece<M>>, tail: string): string {
    if pieces == [] then tail else pieces[0].text + (pieces[0].gap + Rendered(pieces[1..], tail))
  }

  function Messages<M>(pieces: seq<Piece<M>>): (r: seq<M>)
    ensures |r| == |pieces| && forall n :: 0 <= n < |r| ==> r[n] == pieces[n].msg
  {
    seq(|pieces|, n requires 0 <= n < |pieces| => pieces[n].msg)
  }

  lemma {:induction false} LStripBlank(gap: string, s: string)
    requires Blank(gap) && (s != [] ==> !Whitespace(s[0]))
    ensures LStrip(gap + s) == s
  {
    if gap == [] {
      assert gap + s == s;
    } else {
      assert (gap + s)[1..] == gap[1..] + s;
      LStripBlank(gap[1..], s);
    }
  }

  lemma {:induction false} DrainDelivers<M(!new)>(d: Decoder<M>, pieces: seq<Piece<M>>, tail: string, received: seq<M>)
    requires Consumes(d) && PrefixDetermined(d)
    requires Undecodable(d, tail) && forall n :: 0 <= n < |pieces| ==> Encodes(d, pieces[n])
    ensures var text := Rendered(pieces, tail);
      && (text != [] ==> !Whitespace(text[0]))
      && Drain(d, State(text, received)) == State(tail, received + Messages(pieces))
  {
    if pieces == [] {
      assert received + Messages(pieces) == received;
    } else {
      var p, rest := pieces[0], Rendered(pieces[1..], tail);
      assert Encodes(d, p);
      DrainDelivers(d, pieces[1..], tail, received + [p.msg]);
      assert d(p.text + (p.gap + rest)) == d(p.text);
      assert (p.text + (p.gap + rest))[|p.text|..] == p.gap + rest;
      LStripBlank(p.gap, rest);
      assert received + [p.msg] + Messages(pieces[1..]) == received + Messages(pieces);
    }
  }

  /** Messages written one behind the other, with any blanks between them, are delivered one by one
      however the text is cut into chunks; undecodable text behind them is retained. */
  lemma StreamDelivered<M(!new)>(d: Decoder<M>, lead: string, pieces: seq<Piece<M>>, tail: string, chunks: seq<string>)
    requires Consumes(d) && PrefixDetermined(d) && Blank(lead)
    requires Undecodable(d, tail) && forall n :: 0 <= n < |pieces| ==> Encodes(d, pieces[n])
    requires Concat(chunks) == lead + Rendered(pieces, tail)
    ensures PushAll(d, State([], []), chunks) == State(tail, Messages(pieces))
  {
    var text := lead + Rendered(pieces, tail);
    assert Concat([text]) == text + [] == text;
    ChunkingDoesNotMatter(d, chunks, [text]);
    assert PushAll(d, State([], []), [text]) == Pushed(d, State([], []), text);
    DrainDelivers(d, pieces, tail, []);
    LStripBlank(lead, Rendered(pieces, tail));
    assert [] + Messages(pieces) == Messages(pieces);
  }

  lemma {:induction false} DrainKeepsReceived<M(!new)>(d: Decoder<M>, st: State<M>)
    requires Consumes(d)
    ensures st.received <= Drain(d, st).received
    ensures st.buf != [] && d(st.buf).Message? ==> st.received + [d(st.buf).msg] <= Drain(d, st).received
    ensures st.buf == [] || d(st.buf).ValueError? ==> Drain(d, st) == st
    decreases |st.buf|
  {
    if st.buf != [] && d(st.buf).Message? {
      LStripDrops(st.buf[d(st.buf).off..]);
      DrainKeepsReceived(d, State(LStrip(st.buf[d(st.buf).off..]), st.received + [d(st.buf).msg]));
    }
  }

  /** The condition on the decoder is needed: if text that follows turns a decoded message into
      an error or into another message, as it does for a bare number cut in the middle of its
      digits, then pushing in two pieces and pushing at once give different messages. */
  lemma UndeterminedDecoderDiffers<M(!new)>(d: Decoder<M>, a: string, b: string)
    requires Consumes(d) && a != [] && !Whitespace(a[0]) && d(a).Message?
    requires d(a + b).ValueError? || d(a + b).msg != d(a).msg
    ensures PushAll(d, State([], []), [a, b]).received != PushAll(d, State([], []), [a + b]).received
  {
    var st0: State<M> := State([], []);
    DrainKeepsReceived(d, State(a, []));
    var st1 := Pushed(d, st0, a);
    assert st1.received[0] == d(a).msg;
    DrainKeepsReceived(d, State(Attach(st1.buf, b), st1.received));
    assert [a, b][1..] == [b] && [b][1..] == [] && [a + b][1..] == [];
    assert PushAll(d, st0, [a, b]) == PushAll(d, st1, [b]) == Pushed(d, st1, b);
    assert PushAll(d, st0, [a + b]) == Pushed(d, st0, a + b);
    DrainKeepsReceived(d, State(a + b, []));
  }

  class JSONDestreamer<!M(!new)> {
    const decoder: Decoder<M>
    var buf: string
    // The messages passed to the callback, in order.
    var received: seq<M>

    constructor (decoder: Decoder<M>)
      ensures this.decoder == decoder && buf == [] && received == []
    {
      this.decoder, buf, received := decoder, [], [];
    }

    method Push(data: string)
      requires Consumes(decoder)
      modifies this
      ensures State(buf, received) == Pushed(decoder, old(State(buf, received)), data)
    {
      if |buf| == 0 {
        buf := LStrip(data);
      } else {
        buf := buf + data;
      }
      while |buf| > 0
        invariant Drain(decoder, State(buf, received)) == Pushed(decoder, old(State(buf, received)), data)
        decreases |buf|
      {
        var r := decoder(buf);
        if r.ValueError? {
          break;
        }
        LStripDrops(buf[r.off..]);
        buf := LStrip(buf[r.off..]);
        received := received + [r.msg];
      }
    }
  }
}
