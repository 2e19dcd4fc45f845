/** Key-value messages and their framing: XLN/Core/Foundation/Message/BaseMessage.cpp and IMessage.cpp.

    A 32-bit number travels as the four bytes it has in memory, lowest first. A `std::map` is modelled by its
    entries in iteration order, that is, with strictly increasing keys. */
module Messages {
  import opened Machine
  import opened Streams
  import opened Wrappers

  type Text = seq<Byte>
  type Entry = (Text, Text)

  // ---------- The order of a std::map ----------

  /** `std::string` comparison. */
  predicate Less(a: Text, b: Text) {
    b != [] && (a == [] || a[0] < b[0] || (a[0] == b[0] && Less(a[1..], b[1..])))
  }

  lemma {:induction false} LessTotal(a: Text, b: Text)
    ensures Less(a, b) || a == b || Less(b, a)
    ensures !(Less(a, b) && (a == b || Less(b, a)))
  {
    if a != [] && b != [] {
      LessTotal(a[1..], b[1..]);
      assert a == [a[0]] + a[1..] && b == [b[0]] + b[1..];
    } else if a == [] && b == [] {
    }
  }

  lemma {:induction false} LessTransitive(a: Text, b: Text, c: Text)
    requires Less(a, b) && Less(b, c)
    ensures Less(a, c)
  {
    if a != [] && a[0] == b[0] && b[0] == c[0] {
      LessTransitive(a[1..], b[1..], c[1..]);
    }
  }

  /** Texts share their first `i` bytes, and then the first one ends or has the smaller byte. */
  ghost predicate SmallerAt(a: Text, b: Text, i: int) {
    && 0 <= i <= |a| && i < |b| && a[..i] == b[..i]
    && (i < |a| ==> a[i] < b[i])
  }

  /** The order is that of a dictionary. */
  lemma {:induction false} LessMeans(a: Text, b: Text)
    ensures Less(a, b) <==> exists i :: SmallerAt(a, b, i)
  {
    if a != [] && b != [] && a[0] == b[0] {
      LessMeans(a[1..], b[1..]);
      forall i | 0 <= i <= |a| && i < |b|
        ensures SmallerAt(a, b, i) <==> i > 0 && SmallerAt(a[1..], b[1..], i - 1)
      {
        if i > 0 {
          assert a[..i] == [a[0]] + a[1..][..i - 1] && b[..i] == [b[0]] + b[1..][..i - 1];
        }
      }
      if i :| SmallerAt(a[1..], b[1..], i) {
        assert SmallerAt(a, b, i + 1);
      }
    } else if Less(a, b) {
      assert SmallerAt(a, b, 0);
    }
  }

  ghost predicate Sorted(es: seq<Entry>) {
    forall i, j | 0 <= i < j < |es| :: Less(es[i].0, es[j].0)
  }

  /** The entries as a map; of several with one key the first counts. */
  function Contents(es: seq<Entry>): map<Text, Text> {
    if es == [] then map[] else Contents(es[1..])[es[0].0 := es[0].1]
  }

  lemma {:induction false} KeyInContents(es: seq<Entry>, k: Text)
    ensures k in Contents(es) <==> exists i :: 0 <= i < |es| && es[i].0 == k
  {
    if es != [] {
      KeyInContents(es[1..], k);
      if es[0].0 != k && k in Contents(es) {
        var i :| 0 <= i < |es[1..]| && es[1..][i].0 == k;
        assert es[i + 1].0 == k;
      }
      if i :| 0 <= i < |es| && es[i].0 == k {
        assert i == 0 || es[1..][i - 1].0 == k;
      }
    }
  }

  /** `map::insert`: an entry whose key is there already is not touched. */
  function Inserted(es: seq<Entry>, e: Entry): seq<Entry> {
    if es == [] then [e]
    else if es[0].0 == e.0 then es
    else if Less(e.0, es[0].0) then [e] + es
    else [es[0]] + Inserted(es[1..], e)
  }

  /** `map::operator[]` and an assignment: the value of a key that is there already is replaced. */
  function Assigned(es: seq<Entry>, e: Entry): seq<Entry> {
    if es == [] then [e]
    else if es[0].0 == e.0 then [e] + es[1..]
    else if Less(e.0, es[0].0) then [e] + es
    else [es[0]] + Assigned(es[1..], e)
  }

  lemma {:induction false} InsertedSorted(es: seq<Entry>, e: Entry)
    requires Sorted(es)
    ensures Sorted(Inserted(es, e))
    ensures forall i | 0 <= i < |Inserted(es, e)| :: Inserted(es, e)[i] == e || Inserted(es, e)[i] in es
  {
    if es != [] {
      LessTotal(e.0, es[0].0);
      if Less(e.0, es[0].0) {
        forall i | 0 <= i < |es|
          ensures Less(e.0, es[i].0)
        {
          if i > 0 {
            LessTransitive(e.0, es[0].0, es[i].0);
          }
        }
      } else if es[0].0 != e.0 {
        InsertedSorted(es[1..], e);
        var more := Inserted(es[1..], e);
        forall i | 0 <= i < |more|
          ensures Less(es[0].0, more[i].0)
        {
          if more[i] != e {
            var j :| 0 <= j < |es[1..]| && es[1..][j] == more[i];
          }
        }
      }
    }
  }

  lemma {:induction false} InsertedContents(es: seq<Entry>, e: Entry)
    requires Sorted(es)
    ensures Contents(Inserted(es, e)) == if e.0 in Contents(es) then Contents(es) else Contents(es)[e.0 := e.1]
  {
    if es != [] {
      if es[0].0 == e.0 {
      } else if Less(e.0, es[0].0) {
        BelowAllAbsent(es, e.0);
      } else {
        InsertedContents(es[1..], e);
      }
    }
  }

  /** What the first message holds the second one holds too. */
  ghost predicate Keeps(es: seq<Entry>, more: seq<Entry>) {
    forall k | k in Contents(es) :: k in Contents(more) && Contents(more)[k] == Contents(es)[k]
  }

  lemma InsertedKeeps(es: seq<Entry>, more: seq<Entry>, e: Entry)
    requires Keeps(es, more) && Sorted(more)
    ensures Keeps(es, Inserted(more, e))
  {
    InsertedContents(more, e);
  }

  lemma {:induction false} AssignedContents(es: seq<Entry>, e: Entry)
    requires Sorted(es)
    ensures Contents(Assigned(es, e)) == Contents(es)[e.0 := e.1]
  {
    if es != [] && es[0].0 != e.0 && !Less(e.0, es[0].0) {
      AssignedContents(es[1..], e);
    }
  }

  lemma {:induction false} AssignedSorted(es: seq<Entry>, e: Entry)
    requires Sorted(es)
    ensures Sorted(Assigned(es, e))
    ensures forall i | 0 <= i < |Assigned(es, e)| :: Assigned(es, e)[i] == e || Assigned(es, e)[i] in es
  {
    if es != [] {
      LessTotal(e.0, es[0].0);
      if Less(e.0, es[0].0) {
        forall i | 0 <= i < |es|
          ensures Less(e.0, es[i].0)
        {
          if i > 0 {
            LessTransitive(e.0, es[0].0, es[i].0);
          }
        }
      } else if es[0].0 != e.0 {
        AssignedSorted(es[1..], e);
        var more := Assigned(es[1..], e);
        forall i | 0 <= i < |more|
          ensures Less(es[0].0, more[i].0)
        {
          if more[i] != e {
            var j :| 0 <= j < |es[1..]| && es[1..][j] == more[i];
          }
        }
      }
    }
  }

  lemma BelowAllAbsent(es: seq<Entry>, k: Text)
    requires Sorted(es) && es != [] && Less(k, es[0].0)
    ensures k !in Contents(es)
  {
    KeyInContents(es, k);
    forall i | 0 <= i < |es|
      ensures es[i].0 != k
    {
      LessTotal(k, es[i].0);
      if i > 0 {
        LessTransitive(k, es[0].0, es[i].0);
      }
    }
  }

  /** Insertion of entry after entry. */
  function Merged(es: seq<Entry>, more: seq<Entry>): seq<Entry>
    decreases |more|
  {
    if more == [] then es else Merged(Inserted(es, more[0]), more[1..])
  }

  lemma MergedFirst(es: seq<Entry>, more: seq<Entry>)
    ensures Merged(es, more) == if more == [] then es else Merged(Inserted(es, more[0]), more[1..])
  {
  }

  lemma {:induction false} MergedSorted(es: seq<Entry>, more: seq<Entry>)
    requires Sorted(es)
    ensures Sorted(Merged(es, more))
    decreases |more|
  {
    if more != [] {
      InsertedSorted(es, more[0]);
      MergedSorted(Inserted(es, more[0]), more[1..]);
    }
  }

  /** What a message holds keeps its values; the entries read only add to it. */
  lemma {:induction false} MergedContents(es: seq<Entry>, more: seq<Entry>)
    requires Sorted(es)
    ensures Contents(Merged(es, more)) == Contents(more) + Contents(es)
    decreases |more|
  {
    if more != [] {
      InsertedSorted(es, more[0]);
      InsertedContents(es, more[0]);
      MergedContents(Inserted(es, more[0]), more[1..]);
    }
  }

  lemma {:induction false} InsertedLast(es: seq<Entry>, e: Entry)
    requires forall i | 0 <= i < |es| :: Less(es[i].0, e.0)
    ensures Inserted(es, e) == es + [e]
  {
    if es != [] {
      LessTotal(es[0].0, e.0);
      InsertedLast(es[1..], e);
    }
  }

  /** A sorted list read into an empty map comes back in the same order. */
  lemma {:induction false} MergedFromNothing(es: seq<Entry>, more: seq<Entry>)
    requires Sorted(es + more)
    ensures Merged(es, more) == es + more
    decreases |more|
  {
    if more != [] {
      var all := es + more;
      assert forall i | 0 <= i < |es| :: es[i] == all[i] && more[0] == all[|es|];
      InsertedLast(es, more[0]);
      assert es + [more[0]] + more[1..] == all;
      MergedFromNothing(es + [more[0]], more[1..]);
    }
  }

  // ---------- Printing and parsing ----------

  function U32(n: nat): (b: seq<Byte>)
    ensures |b| == 4
  {
    [n % 256, n / 256 % 256, n / 0x1_0000 % 256, n / 0x100_0000 % 256]
  }

  function Number(b: seq<Byte>): nat
    requires |b| == 4
  {
    b[0] as int + 256 * b[1] as int + 0x1_0000 * b[2] as int + 0x100_0000 * b[3] as int
  }

  lemma NextDigits(n: nat)
    ensures n / 256 / 256 == n / 0x1_0000
    ensures n / 0x1_0000 / 256 == n / 0x100_0000
  {
  }

  lemma Remainder(n: nat, x: nat, d: nat)
    requires n == x + UINT32_LIMIT * d && x < UINT32_LIMIT
    ensures n % UINT32_LIMIT == x
  {
  }

  lemma FromDigits(n: nat, a: nat, b: nat, c: nat, d: nat)
    requires a == n / 256 && b == a / 256 && c == b / 256 && d == c / 256
    ensures n == n % 256 + 256 * (a % 256) + 0x1_0000 * (b % 256) + 0x100_0000 * (c % 256) + UINT32_LIMIT * d
  {
  }

  /** A number is cast to 32 bits and written lowest byte first. */
  lemma NumberOfU32(n: nat)
    ensures Number(U32(n)) == n % UINT32_LIMIT
    ensures var b := U32(n);
            n % UINT32_LIMIT == b[0] as int + 256 * b[1] as int + 0x1_0000 * b[2] as int + 0x100_0000 * b[3] as int
  {
    var a, b, c := n / 256, n / 0x1_0000, n / 0x100_0000;
    NextDigits(n);
    FromDigits(n, a, b, c, c / 256);
    Remainder(n, Number(U32(n)), c / 256);
  }

  /** The part of a text whose length, cast to 32 bits, is written in front of it. */
  function Sent(t: Text): Text {
    t[..|t| % UINT32_LIMIT]
  }

  function PrintedText(t: Text): seq<Byte> {
    U32(|t|) + Sent(t)
  }

  function PrintedEntries(es: seq<Entry>): seq<Byte> {
    if es == [] then [] else PrintedText(es[0].0) + PrintedText(es[0].1) + PrintedEntries(es[1..])
  }

  /** What `ToStream` writes. */
  function Printed(es: seq<Entry>): seq<Byte> {
    U32(|es|) + PrintedEntries(es)
  }

  /** On the wire entry `i` follows the entries before it: the key's length, the key, the value's length, the value. */
  lemma {:induction false} EntryOnWire(es: seq<Entry>, i: nat)
    requires i < |es| && |es[i].0| < UINT32_LIMIT && |es[i].1| < UINT32_LIMIT
    ensures var (k, v) := es[i];
            PrintedEntries(es) ==
            PrintedEntries(es[..i]) + (U32(|k|) + k) + (U32(|v|) + v) + PrintedEntries(es[i + 1..])
  {
    hide U32;
    if i == 0 {
      assert PrintedEntries(es[..0]) == [];
      assert Sent(es[0].0) == es[0].0 && Sent(es[0].1) == es[0].1;
    } else {
      EntryOnWire(es[1..], i - 1);
      hide PrintedText;
      assert es[1..][..i - 1] == es[..i][1..] && es[1..][i..] == es[i + 1..];
      assert es[..i] != [] && es[..i][0] == es[0];
      var (k, v) := es[i];
      FirstEntry(PrintedText(es[0].0) + PrintedText(es[0].1), PrintedEntries(es[..i][1..]), U32(|k|) + k, U32(|v|) + v,
                 PrintedEntries(es[i + 1..]));
    }
  }

  lemma FirstEntry(first: seq<Byte>, before: seq<Byte>, k: seq<Byte>, v: seq<Byte>, rest: seq<Byte>)
    ensures first + (before + k + v + rest) == first + before + k + v + rest
  {
  }

  /** One entry, "a" for "bc". */
  lemma OneEntryOnWire()
    ensures Printed([([97], [98, 99])]) == [1, 0, 0, 0, 1, 0, 0, 0, 97, 2, 0, 0, 0, 98, 99]
  {
    var es: seq<Entry> := [([97], [98, 99])];
    assert es[1..] == [] && PrintedEntries(es) == PrintedText([97]) + PrintedText([98, 99]) + PrintedEntries([]);
    assert Sent([97]) == [97] && Sent([98, 99]) == [98, 99];
  }

  /** `Short` when the bytes end too early, or announce a text so long that its length and terminator do not fit
      32 bits. What is read then is not specified. */
  datatype Parse<T> = Short | Got(value: T, used: nat)

  /** A byte buffer taken as a C string. */
  function CText(b: seq<Byte>): (r: Text)
    ensures |r| <= |b|
  {
    if b == [] || b[0] == 0 then [] else [b[0]] + CText(b[1..])
  }

  function ParsedNumber(b: seq<Byte>): (r: Parse<nat>)
    ensures r.Got? ==> r.used == 4 <= |b|
  {
    if |b| < 4 then Short else Got(Number(b[..4]), 4)
  }

  function ParsedText(b: seq<Byte>): (r: Parse<Text>)
    ensures r.Got? ==> r.used <= |b|
  {
    match ParsedNumber(b)
    case Short => Short
    case Got(n, _) => if |b| < 4 + n || n + 1 >= UINT32_LIMIT then Short else Got(CText(b[4..4 + n]), 4 + n)
  }

  function ParsedEntry(b: seq<Byte>): (r: Parse<Entry>)
    ensures r.Got? ==> r.used <= |b|
  {
    match ParsedText(b)
    case Short => Short
    case Got(k, n) =>
      match ParsedText(b[n..])
      case Short => Short
      case Got(v, m) => Got((k, v), n + m)
  }

  function ParsedEntries(b: seq<Byte>, count: nat): (r: Parse<seq<Entry>>)
    ensures r.Got? ==> r.used <= |b|
    decreases count
  {
    if count == 0 then Got([], 0)
    else
      match ParsedEntry(b)
      case Short => Short
      case Got(e, n) =>
        match ParsedEntries(b[n..], count - 1)
        case Short => Short
        case Got(es, m) => Got([e] + es, n + m)
  }

  lemma EntriesStep(b: seq<Byte>, count: nat)
    requires ParsedEntries(b, count).Got?
    ensures var r := ParsedEntries(b, count);
            if count == 0 then r == Got([], 0)
            else
              var first := ParsedEntry(b);
              && first.Got? && r.value != [] && first.value == r.value[0] && first.used <= r.used
              && ParsedEntries(b[first.used..], count - 1) == Got(r.value[1..], r.used - first.used)
  {
  }

  /** What `FromStream` reads, when the stream holds all of it. */
  function Parsed(b: seq<Byte>): (r: Parse<seq<Entry>>)
    ensures r.Got? ==> r.used <= |b|
  {
    match ParsedNumber(b)
    case Short => Short
    case Got(count, _) =>
      match ParsedEntries(b[4..], count)
      case Short => Short
      case Got(es, m) => Got(es, 4 + m)
  }

  predicate Sendable(t: Text) {
    0 !in t && |t| + 1 < UINT32_LIMIT
  }

  predicate AllSendable(es: seq<Entry>) {
    forall i | 0 <= i < |es| :: Sendable(es[i].0) && Sendable(es[i].1)
  }

  lemma {:induction false} CTextOfPlain(t: Text)
    requires 0 !in t
    ensures CText(t) == t
  {
    if t != [] {
      assert t[0] in t;
      CTextOfPlain(t[1..]);
    }
  }

  lemma NumberRoundTrip(n: nat, tail: seq<Byte>)
    ensures ParsedNumber(U32(n) + tail) == Got(n % UINT32_LIMIT, 4) && (U32(n) + tail)[4..] == tail
    ensures n < UINT32_LIMIT ==> n % UINT32_LIMIT == n
  {
    NumberOfU32(n);
    hide U32, Number;
    assert (U32(n) + tail)[..4] == U32(n);
  }

  lemma TextRoundTrip(t: Text, tail: seq<Byte>)
    requires Sendable(t)
    ensures ParsedText(PrintedText(t) + tail) == Got(t, |PrintedText(t)|)
  {
    NumberRoundTrip(|t|, t + tail);
    CTextOfPlain(t);
    hide U32, ParsedNumber, CText;
    var b := PrintedText(t) + tail;
    assert Sent(t) == t;
    assert b == U32(|t|) + (t + tail) && b[4..4 + |t|] == t;
  }

  lemma {:induction false} CTextHasNoNul(b: seq<Byte>)
    ensures 0 !in CText(b)
  {
    if b != [] && b[0] != 0 {
      CTextHasNoNul(b[1..]);
    }
  }

  /** A text comes back as it was sent exactly if it holds no NUL and its length and terminator fit 32 bits. */
  lemma TextRoundTripExactly(t: Text, tail: seq<Byte>)
    ensures ParsedText(PrintedText(t) + tail) == Got(t, |PrintedText(t)|) <==> Sendable(t)
  {
    if Sendable(t) {
      TextRoundTrip(t, tail);
    } else {
      NumberRoundTrip(|t|, Sent(t) + tail);
      hide U32, ParsedNumber, CText;
      var b, n := PrintedText(t) + tail, |t| % UINT32_LIMIT;
      assert b == U32(|t|) + (Sent(t) + tail) && b[4..4 + n] == Sent(t);
      CTextHasNoNul(Sent(t));
    }
  }

  lemma EntryRoundTrip(e: Entry, tail: seq<Byte>)
    requires Sendable(e.0) && Sendable(e.1)
    ensures ParsedEntry(PrintedText(e.0) + PrintedText(e.1) + tail) == Got(e, |PrintedText(e.0) + PrintedText(e.1)|)
  {
    hide PrintedText, ParsedText;
    var k, v := PrintedText(e.0), PrintedText(e.1);
    var b := k + v + tail;
    assert b == k + (v + tail) && b[|k|..] == v + tail;
    TextRoundTrip(e.0, v + tail);
    TextRoundTrip(e.1, tail);
  }

  lemma {:induction false} EntriesRoundTrip(es: seq<Entry>, tail: seq<Byte>)
    requires AllSendable(es)
    ensures ParsedEntries(PrintedEntries(es) + tail, |es|) == Got(es, |PrintedEntries(es)|)
  {
    hide PrintedText, ParsedText, ParsedEntry;
    if es != [] {
      var first, rest := PrintedText(es[0].0) + PrintedText(es[0].1), PrintedEntries(es[1..]);
      var b := PrintedEntries(es) + tail;
      assert b == first + (rest + tail) && b[|first|..] == rest + tail;
      EntryRoundTrip(es[0], rest + tail);
      EntriesRoundTrip(es[1..], tail);
      assert [es[0]] + es[1..] == es;
    }
  }

  /** Parsing what was printed, whatever follows it, gives the entries back and uses up exactly what was printed. */
  lemma PrintedRoundTrip(es: seq<Entry>, tail: seq<Byte>)
    requires AllSendable(es) && |es| < UINT32_LIMIT
    ensures Parsed(Printed(es) + tail) == Got(es, |Printed(es)|)
  {
    hide U32, ParsedNumber, ParsedEntries, PrintedEntries, ParsedEntry;
    var head, body := U32(|es|), PrintedEntries(es);
    var b := head + (body + tail);
    assert Printed(es) + tail == b;
    hide Printed;
    assert ParsedNumber(b) == Got(|es|, 4) && b[4..] == body + tail by {
      NumberRoundTrip(|es|, body + tail);
    }
    EntriesRoundTrip(es, tail);
  }

  /** Whatever is read holds only texts that can be sent. */
  lemma ParsedTextSendable(b: seq<Byte>)
    ensures ParsedText(b).Got? ==> Sendable(ParsedText(b).value)
  {
    if ParsedText(b).Got? {
      CTextHasNoNul(b[4..4 + ParsedNumber(b).value]);
    }
  }

  lemma ParsedEntrySendable(b: seq<Byte>)
    ensures var e := ParsedEntry(b); e.Got? ==> Sendable(e.value.0) && Sendable(e.value.1)
  {
    hide ParsedText;
    ParsedTextSendable(b);
    if ParsedText(b).Got? {
      ParsedTextSendable(b[ParsedText(b).used..]);
    }
  }

  lemma {:induction false} ParsedEntriesSendable(b: seq<Byte>, count: nat)
    requires ParsedEntries(b, count).Got?
    ensures AllSendable(ParsedEntries(b, count).value) && |ParsedEntries(b, count).value| == count
    decreases count
  {
    hide ParsedEntry;
    if count > 0 {
      ParsedEntrySendable(b);
      ParsedEntriesSendable(b[ParsedEntry(b).used..], count - 1);
    }
  }

  /** A message is read back as it was written exactly if all its texts can be sent and their number fits 32 bits. */
  lemma PrintedRoundTripExactly(es: seq<Entry>, tail: seq<Byte>)
    ensures Parsed(Printed(es) + tail) == Got(es, |Printed(es)|) <==> AllSendable(es) && |es| < UINT32_LIMIT
  {
    if AllSendable(es) && |es| < UINT32_LIMIT {
      PrintedRoundTrip(es, tail);
    } else {
      hide Printed, ParsedEntries;
      var b := Printed(es) + tail;
      if Parsed(b).Got? {
        ParsedEntriesSendable(b[4..], ParsedNumber(b).value);
        NumberBound(b[..4]);
      }
    }
  }

  lemma NumberBound(b: seq<Byte>)
    requires |b| == 4
    ensures Number(b) < UINT32_LIMIT
  {
  }

  lemma {:induction false} CTextTerminated(t: Text)
    ensures CText(t + [0]) == CText(t)
  {
    if t != [] {
      assert (t + [0])[1..] == t[1..] + [0];
      CTextTerminated(t[1..]);
    }
  }

  // ---------- The message class ----------

  class KeyValuePairMessage {
    var entries: seq<Entry>

    ghost predicate Valid()
      reads this
    {
      Sorted(entries)
    }

    constructor ()
      ensures Valid() && entries == []
    {
      entries := [];
    }

    method InsertValue(key: Text, value: Text)
      requires Valid()
      modifies this
      ensures Valid() && Contents(entries) == old(Contents(entries))[key := value]
    {
      AssignedSorted(entries, (key, value));
      AssignedContents(entries, (key, value));
      entries := Assigned(entries, (key, value));
    }

    method GetValue(key: Text) returns (r: Option<Text>)
      requires Valid()
      ensures r == if key in Contents(entries) then Some(Contents(entries)[key]) else None
    {
      var i := 0;
      while i < |entries|
        invariant i <= |entries|
        invariant key in Contents(entries) <==> key in Contents(entries[i..])
        invariant key in Contents(entries) ==> Contents(entries)[key] == Contents(entries[i..])[key]
      {
        if entries[i].0 == key {
          return Some(entries[i].1);
        }
        assert entries[i..][1..] == entries[i + 1..];
        i := i + 1;
      }
      return None;
    }

    method ToStream(stream: MemoryDataStream)
      requires stream.Valid()
      modifies stream`pos, stream.data
      ensures stream.Valid()
              && Appends(old(stream.data[..]), old(stream.pos), stream.data[..], stream.pos, Printed(entries))
    {
      hide U32, Sent, PrintedEntries, Appends;
      ghost var data0, pos0 := stream.data[..], stream.pos;
      ghost var done := [];
      NothingAppended(data0, pos0);
      done := Put(stream, U32(|entries|), data0, pos0, done);
      assert entries[0..] == entries && [] + U32(|entries|) == U32(|entries|);
      var i := 0;
      while i < |entries|
        invariant i <= |entries| && stream.Valid()
        invariant Appends(data0, pos0, stream.data[..], stream.pos, done)
        invariant Printed(entries) == done + PrintedEntries(entries[i..])
      {
        var (key, value) := entries[i];
        ghost var before := done;
        done := Put(stream, U32(|key|), data0, pos0, done);
        done := Put(stream, Sent(key), data0, pos0, done);
        done := Put(stream, U32(|value|), data0, pos0, done);
        done := Put(stream, Sent(value), data0, pos0, done);
        NextPrinted(before, entries, i);
        i := i + 1;
      }
      NothingPrinted(entries);
      assert done + [] == done;
    }

    /** Reads a message's entries and inserts them one by one. When the stream holds them all, exactly their
        bytes are used up. Whatever it holds, the entries already there keep their values. */
    method FromStream(stream: MemoryDataStream)
      requires Valid() && stream.Valid()
      modifies this, stream`pos
      ensures Valid() && stream.Valid() && Keeps(old(entries), entries)
      ensures var r := Parsed(old(stream.Remaining()));
              r.Got? ==> entries == Merged(old(entries), r.value) && stream.pos == old(stream.pos) + r.used
    {
      hide ParsedEntry, ParsedEntries, Merged, Inserted, Sorted, Contents;
      ghost var whole := Parsed(stream.Remaining());
      ghost var b := stream.Remaining();
      var mapSize := ReadNumber(stream, 0);
      assert |b| >= 4 ==> stream.pos == old(stream.pos) + 4 && stream.Remaining() == b[4..];
      ghost var result, end := [], 0;
      ghost var todo := [];
      if whole.Got? {
        todo := whole.value;
        result, end := Merged(entries, todo), stream.pos - 4 + whole.used;
      }
      var strSize := 0;
      for i := 0 to mapSize
        invariant Valid() && stream.Valid() && Keeps(old(entries), entries)
        invariant whole.Got? ==>
            && stream.pos <= end && Merged(entries, todo) == result
            && ParsedEntries(stream.Remaining(), mapSize - i) == Got(todo, end - stream.pos)
      {
        var e;
        ghost var left := stream.Remaining();
        if whole.Got? {
          EntriesStep(left, mapSize - i);
        }
        e, strSize := ReadEntry(stream, strSize);
        InsertedSorted(entries, e);
        if whole.Got? {
          assert stream.Remaining() == left[ParsedEntry(left).used..];
          MergedFirst(entries, todo);
          todo := todo[1..];
        }
        InsertedKeeps(old(entries), entries, e);
        entries := Inserted(entries, e);
      }
      if whole.Got? {
        EntriesStep(stream.Remaining(), 0);
        MergedFirst(entries, todo);
      }
    }

    /** A key and a value. */
    method ReadEntry(stream: MemoryDataStream, before: nat) returns (e: Entry, size: nat)
      requires stream.Valid()
      modifies stream`pos
      ensures stream.Valid()
      ensures var r := ParsedEntry(old(stream.Remaining()));
              r.Got? ==> e == r.value && stream.pos == old(stream.pos) + r.used
    {
      hide ParsedText;
      var key, value;
      key, size := ReadText(stream, before);
      value, size := ReadText(stream, size);
      e := (key, value);
    }

    /** Reads a number over the memory of an earlier one; the bytes the stream lacks stay what they were. */
    method ReadNumber(stream: MemoryDataStream, before: nat) returns (n: nat)
      requires stream.Valid()
      modifies stream`pos
      ensures stream.Valid()
      ensures var r := ParsedNumber(old(stream.Remaining()));
              r.Got? ==> n == r.value && stream.pos == old(stream.pos) + r.used
    {
      hide Number;
      var old4 := U32(before);
      var buf := new Byte[4](i requires 0 <= i < 4 => old4[i]);
      var cnt := stream.Read(buf, 4);
      assert cnt == 4 ==> buf[..] == old(stream.Remaining())[..4];
      n := Number(buf[..]);
    }

    /** Reads a text by way of a buffer one byte longer, closed by a NUL. */
    method ReadText(stream: MemoryDataStream, before: nat) returns (t: Text, size: nat)
      requires stream.Valid()
      modifies stream`pos
      ensures stream.Valid()
      ensures var r := ParsedText(old(stream.Remaining()));
              r.Got? ==> t == r.value && stream.pos == old(stream.pos) + r.used
    {
      hide CText, Number;
      size := ReadNumber(stream, before);
      ghost var left := stream.Remaining();
      var buf := new Byte[size + 1];
      var cnt := stream.Read(buf, size);
      buf[size] := 0;
      t := CText(buf[..]);
      if cnt == size {
        assert buf[..] == left[..size] + [0];
        assert |old(stream.Remaining())| >= 4 + size ==> left[..size] == old(stream.Remaining())[4..4 + size];
        CTextTerminated(left[..size]);
      }
    }

    /** One write of a longer message. */
    method Put(stream: MemoryDataStream, w: seq<Byte>, ghost data0: seq<Byte>, ghost pos0: nat, ghost done: seq<Byte>)
      returns (ghost done': seq<Byte>)
      requires stream.Valid() && Appends(data0, pos0, stream.data[..], stream.pos, done)
      modifies stream`pos, stream.data
      ensures stream.Valid() && done' == done + w && Appends(data0, pos0, stream.data[..], stream.pos, done')
    {
      WrittenTwice(data0, pos0, done, w);
      var cnt := stream.Write(w);
      done' := done + w;
    }
  }

  lemma NothingPrinted(es: seq<Entry>)
    ensures PrintedEntries(es[|es|..]) == []
  {
  }

  lemma NextPrinted(done: seq<Byte>, es: seq<Entry>, i: nat)
    requires i < |es|
    ensures var (k, v) := es[i];
            done + U32(|k|) + Sent(k) + U32(|v|) + Sent(v) + PrintedEntries(es[i + 1..])
            == done + PrintedEntries(es[i..])
  {
    hide U32, Sent;
    assert es[i..][1..] == es[i + 1..];
  }
}
