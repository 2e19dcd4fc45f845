/** Type-tagged framing of messages: XLN/Core/Foundation/Message/IMessage.cpp.

    A message travels as the 16 bytes of its class's identifier and then its own bytes. The registry maps
    identifiers to creators; every registered creator here makes a key-value message. */
module Framing {
  import opened Machine
  import opened Sequences
  import opened Streams
  import opened Messages

  type Uid = b: seq<Byte> | |b| == 16 witness seq(16, i => 0)

  function Framed(id: Uid, es: seq<Entry>): seq<Byte> {
    id + Printed(es)
  }

  /** One frame: the identifier, and the entries if the identifier is registered. */
  function ParsedFrame(b: seq<Byte>, creators: set<Uid>): (r: Parse<seq<Entry>>)
    ensures r.Got? ==> r.used <= |b|
  {
    if |b| < 16 || b[..16] !in creators then Short
    else
      match Parsed(b[16..])
      case Short => Short
      case Got(es, n) => Got(es, 16 + n)
  }

  method MsgToStream(msg: KeyValuePairMessage, id: Uid, stream: MemoryDataStream)
    requires stream.Valid()
    modifies stream`pos, stream.data
    ensures stream.Valid()
    ensures Appends(old(stream.data[..]), old(stream.pos), stream.data[..], stream.pos, Framed(id, msg.entries))
  {
    hide Printed;
    WrittenTwice(stream.data[..], stream.pos, id, Printed(msg.entries));
    var cnt := stream.Write(id);
    msg.ToStream(stream);
  }

  method StreamToMsg(stream: MemoryDataStream, creators: set<Uid>) returns (msg: KeyValuePairMessage?)
    requires stream.Valid()
    modifies stream`pos
    ensures stream.Valid() && (msg != null ==> fresh(msg) && msg.Valid())
    ensures var b := old(stream.Remaining());
            |b| >= 16 ==>
              && (msg != null <==> b[..16] in creators)
              && (msg == null ==> stream.pos == old(stream.pos) + 16)
              && (ParsedFrame(b, creators).Got? ==>
                    && msg.entries == Merged([], ParsedFrame(b, creators).value)
                    && stream.pos == old(stream.pos) + ParsedFrame(b, creators).used)
  {
    hide Parsed, Merged;
    ghost var b := stream.Remaining();
    var buf := new Byte[16](i => 0);
    var cnt := stream.Read(buf, 16);
    var id: Uid := buf[..];
    assert |b| >= 16 ==> id == b[..16] && stream.Remaining() == b[16..];
    if id in creators {
      var newMessage := new KeyValuePairMessage();
      newMessage.FromStream(stream);
      return newMessage;
    }
    return null;
  }

  // ---------- Many messages in a row ----------

  function FramedAll(id: Uid, msgs: seq<seq<Entry>>): seq<Byte> {
    if msgs == [] then [] else Framed(id, msgs[0]) + FramedAll(id, msgs[1..])
  }

  /** `count` messages read one after the other, each into a new message. */
  function ParsedFrames(b: seq<Byte>, creators: set<Uid>, count: nat): (r: Parse<seq<seq<Entry>>>)
    decreases count
  {
    if count == 0 then Got([], 0)
    else
      match ParsedFrame(b, creators)
      case Short => Short
      case Got(es, n) =>
        match ParsedFrames(b[n..], creators, count - 1)
        case Short => Short
        case Got(rest, m) => Got([Merged([], es)] + rest, n + m)
  }

  /** What a `std::map` of texts short enough to send can hold. */
  ghost predicate Message(es: seq<Entry>) {
    Sorted(es) && AllSendable(es) && |es| < UINT32_LIMIT
  }

  /** One message comes back equal, and its reader stops exactly where its writer did. */
  lemma FrameRoundTrip(id: Uid, creators: set<Uid>, es: seq<Entry>, tail: seq<Byte>)
    requires id in creators && Message(es)
    ensures ParsedFrame(Framed(id, es) + tail, creators) == Got(es, |Framed(id, es)|)
    ensures Merged([], es) == es
  {
    hide Printed, Parsed;
    PrintedRoundTrip(es, tail);
    var b := Framed(id, es) + tail;
    assert b[..16] == id && b[16..] == Printed(es) + tail;
    assert [] + es == es;
    MergedFromNothing([], es);
  }

  /** Messages written one after the other come back equal and in order, and use up exactly what was written. */
  lemma {:induction false} FramesRoundTrip(id: Uid, creators: set<Uid>, msgs: seq<seq<Entry>>, tail: seq<Byte>)
    requires id in creators
    requires forall i | 0 <= i < |msgs| :: Message(msgs[i])
    ensures ParsedFrames(FramedAll(id, msgs) + tail, creators, |msgs|) == Got(msgs, |FramedAll(id, msgs)|)
  {
    hide Framed, ParsedFrame, Merged, Message;
    if msgs != [] {
      var first, rest := Framed(id, msgs[0]), FramedAll(id, msgs[1..]);
      var b := FramedAll(id, msgs) + tail;
      assert b == first + (rest + tail);
      assert b[|first|..] == rest + tail;
      FrameRoundTrip(id, creators, msgs[0], rest + tail);
      FramesRoundTrip(id, creators, msgs[1..], tail);
      assert [msgs[0]] + msgs[1..] == msgs;
    }
  }

  // ---------- From one program to another ----------

  lemma {:induction false} FramedAllGrows(id: Uid, msgs: seq<seq<Entry>>, es: seq<Entry>)
    ensures FramedAll(id, msgs + [es]) == FramedAll(id, msgs) + Framed(id, es)
  {
    hide Framed;
    if msgs == [] {
      assert [es][1..] == [] && FramedAll(id, [es]) == Framed(id, es) + FramedAll(id, []);
    } else {
      assert (msgs + [es])[1..] == msgs[1..] + [es];
      FramedAllGrows(id, msgs[1..], es);
    }
  }

  function AllEntries(msgs: seq<KeyValuePairMessage>): (r: seq<seq<Entry>>)
    reads msgs
    ensures |r| == |msgs| && forall i | 0 <= i < |r| :: r[i] == msgs[i].entries
  {
    seq(|msgs|, i requires 0 <= i < |msgs| reads msgs => msgs[i].entries)
  }

  /** Everything that was written stands at the start of a stream that was large enough. */
  lemma WrittenInFull(data0: seq<Byte>, data: seq<Byte>, pos: nat, w: seq<Byte>)
    requires Appends(data0, 0, data, pos, w) && |w| <= |data0|
    ensures pos == |w| && w <= data
  {
    assert w[..|w|] == w;
    assert data == w + data0[|w|..];
  }

  /** Writes messages one after the other to a fresh stream. */
  method WriteAll(msgs: seq<KeyValuePairMessage>, id: Uid, size: nat) returns (stream: MemoryDataStream)
    ensures fresh(stream) && fresh(stream.data) && stream.Valid()
    ensures |FramedAll(id, AllEntries(msgs))| <= size ==> FramedAll(id, AllEntries(msgs)) <= stream.data[..]
  {
    hide Framed, FramedAll, Appends, Written;
    stream := new MemoryDataStream(size);
    ghost var data0, all := stream.data[..], AllEntries(msgs);
    NothingFramed(id, data0);
    for i := 0 to |msgs|
      invariant stream.Valid() && Appends(data0, 0, stream.data[..], stream.pos, FramedAll(id, all[..i]))
      modifies stream, stream.data
    {
      ghost var data, pos := stream.data[..], stream.pos;
      MsgToStream(msgs[i], id, stream);
      AppendsTwice(data0, 0, data, pos, stream.data[..], stream.pos, FramedAll(id, all[..i]), Framed(id, all[i]));
      FramedAllGrows(id, all[..i], all[i]);
      Prefixes(all, i);
    }
    assert all[..|msgs|] == all;
    if |FramedAll(id, all)| <= size {
      WrittenInFull(data0, stream.data[..], stream.pos, FramedAll(id, all));
    }
  }

  /** Reads as many messages as there are in `all`, each into a new message. */
  method ReadAll(stream: MemoryDataStream, creators: set<Uid>, id: Uid, ghost all: seq<seq<Entry>>, count: nat,
                 ghost tail: seq<Byte>)
    returns (received: seq<KeyValuePairMessage>)
    requires id in creators && count == |all| && forall i | 0 <= i < |all| :: Message(all[i])
    requires stream.Valid() && stream.Remaining() == FramedAll(id, all) + tail
    modifies stream`pos
    ensures stream.Valid() && stream.Remaining() == tail
    ensures |received| == |all| && forall j | 0 <= j < |all| :: fresh(received[j]) && received[j].entries == all[j]
  {
    hide Framed, FramedAll, Message, ParsedFrame, Merged;
    received := [];
    assert all[0..] == all;
    for i := 0 to count
      invariant stream.Valid() && |received| == i
      invariant forall j | 0 <= j < i :: fresh(received[j]) && received[j].entries == all[j]
      invariant stream.Remaining() == FramedAll(id, all[i..]) + tail
      modifies stream`pos
    {
      Suffixes(all, i);
      NextFrame(id, creators, all[i..], tail);
      var msg := StreamToMsg(stream, creators);
      received := received + [msg];
    }
    NothingLeft(id, all, tail);
  }

  lemma NothingLeft(id: Uid, all: seq<seq<Entry>>, tail: seq<Byte>)
    ensures FramedAll(id, all[|all|..]) + tail == tail
  {
  }

  lemma WholeStream(data: seq<Byte>, w: seq<Byte>)
    requires w <= data
    ensures data[0..] == data == w + data[|w|..]
  {
  }

  /** Messages written to a stream that is large enough and read from its start come back equal and in order. */
  method Transfer(msgs: seq<KeyValuePairMessage>, id: Uid, creators: set<Uid>, size: nat)
    returns (received: seq<KeyValuePairMessage>)
    requires id in creators && forall i | 0 <= i < |msgs| :: Message(msgs[i].entries)
    requires |FramedAll(id, AllEntries(msgs))| <= size
    ensures AllEntries(received) == AllEntries(msgs)
  {
    hide FramedAll, Message, AllEntries;
    ghost var all := AllEntries(msgs);
    var stream := WriteAll(msgs, id, size);
    ghost var tail := stream.data[..][|FramedAll(id, all)|..];
    stream.Seek(0);
    WholeStream(stream.data[..], FramedAll(id, all));
    received := ReadAll(stream, creators, id, all, |msgs|, tail);
  }

  lemma NothingFramed(id: Uid, data0: seq<Byte>)
    ensures Appends(data0, 0, data0, 0, FramedAll(id, []))
  {
    NothingAppended(data0, 0);
  }

  /** The first frame of a row of messages parses to the first message and leaves the others. */
  lemma NextFrame(id: Uid, creators: set<Uid>, msgs: seq<seq<Entry>>, tail: seq<Byte>)
    requires id in creators && msgs != [] && Message(msgs[0])
    ensures var b := FramedAll(id, msgs) + tail;
            && |b| >= 16 && b[..16] in creators && ParsedFrame(b, creators) == Got(msgs[0], |Framed(id, msgs[0])|)
            && Merged([], msgs[0]) == msgs[0] && b[|Framed(id, msgs[0])|..] == FramedAll(id, msgs[1..]) + tail
  {
    hide Message, ParsedFrame, Merged, Printed;
    var b, first, rest := FramedAll(id, msgs) + tail, Framed(id, msgs[0]), FramedAll(id, msgs[1..]);
    assert b == first + (rest + tail);
    FrameRoundTrip(id, creators, msgs[0], rest + tail);
    assert |first| >= 16 && first[..16] == id;
    hide Framed, FramedAll;
    assert b[..16] == id && b[|first|..] == rest + tail;
  }
}
