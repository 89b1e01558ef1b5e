/**
 The two-phase dispatch exchange with a Z21 (`dispatch_addr`): a serial-number probe,
 then LAN_LOCONET_DISPATCH_ADDR, section 9.4 of the Z21 LAN Protocol Specification.
 */
module Z21Dispatch {
  import opened Prelude
  import opened Z21Records

  const SERIAL: Word := 0x0010
  const LOGOFF: Word := 0x0030
  const XBUS: Word := 0x0040
  const DISPATCH: Word := 0x00A3

  /** What one receive brings before the phase's deadline: a failure, nothing, or a datagram. */
  datatype Event = Broken | Quiet | Datagram(fromTarget: bool, bytes: seq<Byte>)

  datatype DispatchError = Io | UnknownCommand | Rejected | Unreachable

  datatype Outcome = Slot(n: Byte) | NoAck

  type Verdict = Result<Outcome, DispatchError>

  // ----- records --------------------------------------------------------------------

  predicate IsUnknownCommand(r: Record)
  {
    r.header == XBUS && |r.data| >= 2 && r.data[0] == 0x61 && r.data[1] == 0x82
  }

  predicate IsSerialReply(r: Record)
  {
    r.header == SERIAL
  }

  /** `parse_dispatch_reply`. */
  function DispatchReply(data: seq<Byte>): (r: Option<(Word, Byte)>)
    ensures r.Some? <==> |data| >= 3
  {
    if |data| < 3 then None else Some((WordAt(data, 0), data[2]))
  }

  /** An answer as the station writes it is read as its address and result, whatever follows. */
  lemma DispatchReplyRead(loco: Word, n: Byte, tail: seq<Byte>)
    ensures DispatchReply(Little(loco) + [n] + tail) == Some((loco, n))
  {
    var data := Little(loco) + [n] + tail;
    assert data[0] == Little(loco)[0] && data[1] == Little(loco)[1] && data[2] == n;
  }

  /** A station's answer about this loco decides: the slot, or a refusal for 0. */
  lemma AnswerDecides(loco: Word, n: Byte, tail: seq<Byte>)
    ensures Decision(loco, Record(DISPATCH, Little(loco) + [n] + tail)) ==
            Some(if n == 0 then Err(Rejected) else Ok(Slot(n)))
  {
    DispatchReplyRead(loco, n, tail);
  }

  /** What a record received in the dispatch phase decides, if anything. */
  function Decision(loco: Word, r: Record): (v: Option<Verdict>)
  {
    if IsUnknownCommand(r) then Some(Err(UnknownCommand))
    else if r.header != DISPATCH then None
    else
      match DispatchReply(r.data)
      case None => None
      case Some((addr, result)) =>
        if addr != loco then None
        else if result == 0 then Some(Err(Rejected))
        else Some(Ok(Slot(result)))
  }

  // ----- the first decisive one ----------------------------------------------------------

  /** The first decision `f` makes along `s`. */
  function First<T, V>(f: T -> Option<V>, s: seq<T>): (v: Option<V>)
  {
    if s == [] then None else if f(s[0]).Some? then f(s[0]) else First(f, s[1..])
  }

  /** It is the decision of an element before which nothing decides, and there is none only if nothing decides. */
  lemma {:induction false} FirstIs<T, V>(f: T -> Option<V>, s: seq<T>)
    ensures First(f, s).None? ==> forall i :: 0 <= i < |s| ==> f(s[i]).None?
    ensures First(f, s).Some? ==>
              exists k :: 0 <= k < |s| && f(s[k]) == First(f, s) && forall i :: 0 <= i < k ==> f(s[i]).None?
  {
    if s != [] {
      FirstIs(f, s[1..]);
      if f(s[0]).None? && First(f, s[1..]).Some? {
        var k :| 0 <= k < |s[1..]| && f(s[1..][k]) == First(f, s[1..]) && forall i :: 0 <= i < k ==> f(s[1..][i]).None?;
        assert f(s[k + 1]) == First(f, s);
        forall i | 0 <= i < k + 1 ensures f(s[i]).None? {
          if i > 0 {
            assert f(s[1..][i - 1]).None?;
          }
        }
      }
    }
  }

  lemma {:induction false} FirstSplit<T, V>(f: T -> Option<V>, a: seq<T>, x: T, b: seq<T>)
    requires forall i :: 0 <= i < |a| ==> f(a[i]).None?
    ensures First(f, a + [x] + b) == if f(x).Some? then f(x) else First(f, b)
  {
    var s := a + [x] + b;
    if a == [] {
      assert s[0] == x && s[1..] == b;
    } else {
      assert s[0] == a[0] && s[1..] == a[1..] + [x] + b;
      FirstSplit(f, a[1..], x, b);
    }
  }

  lemma {:induction false} FirstNone<T, V>(f: T -> Option<V>, s: seq<T>)
    requires forall i :: 0 <= i < |s| ==> f(s[i]).None?
    ensures First(f, s).None?
  {
    if s != [] {
      FirstNone(f, s[1..]);
    }
  }

  /** Stopping at index `k`: nothing before it decided, and it does. */
  lemma FirstAt<T, V>(f: T -> Option<V>, s: seq<T>, k: nat)
    requires k < |s| && f(s[k]).Some? && forall i :: 0 <= i < k ==> f(s[i]).None?
    ensures First(f, s) == f(s[k])
  {
    assert s == s[..k] + [s[k]] + s[k + 1..];
    FirstSplit(f, s[..k], s[k], s[k + 1..]);
  }

  // ----- the two phases ----------------------------------------------------------------------

  datatype Probe = ProbeBroken | ProbeUnknown | Alive

  /** What a receive of the probe phase decides. */
  function ProbeOf(e: Event): (p: Option<Probe>)
  {
    match e
    case Broken => Some(ProbeBroken)
    case Quiet => None
    case Datagram(fromTarget, bytes) =>
      if !fromTarget then None
      else if exists i :: 0 <= i < |Parse(bytes)| && IsUnknownCommand(Parse(bytes)[i]) then Some(ProbeUnknown)
      else if exists i :: 0 <= i < |Parse(bytes)| && IsSerialReply(Parse(bytes)[i]) then Some(Alive)
      else None
  }

  /** What a receive of the dispatch phase decides: its first decisive record. */
  function ReplyOf(loco: Word, e: Event): (v: Option<Verdict>)
  {
    match e
    case Broken => Some(Err(Io))
    case Quiet => None
    case Datagram(fromTarget, bytes) =>
      if !fromTarget then None else First((r: Record) => Decision(loco, r), Parse(bytes))
  }

  function SerialRequest(): (p: seq<Byte>) { Encode(SERIAL, []) }
  function DispatchRequest(loco: Word): (p: seq<Byte>) { Encode(DISPATCH, Little(loco)) }
  function LogoffRequest(): (p: seq<Byte>) { Encode(LOGOFF, []) }

  /** The result when the probe did not end the exchange. */
  function Concluded(alive: bool, loco: Word, replies: seq<Event>): (v: Verdict)
  {
    match First((e: Event) => ReplyOf(loco, e), replies)
    case Some(v) => v
    case None => if alive then Ok(NoAck) else Err(Unreachable)
  }

  /** The exchange as a function of what is received before each of the two deadlines. */
  function Exchange(ready: bool, loco: Word, probes: seq<Event>, replies: seq<Event>): (v: Verdict)
  {
    if !ready then Err(Io)
    else
      var probe := First(ProbeOf, probes);
      if probe == Some(ProbeBroken) then Err(Io)
      else if probe == Some(ProbeUnknown) then Err(UnknownCommand)
      else Concluded(probe == Some(Alive), loco, replies)
  }

  // ----- the loops -----------------------------------------------------------------------------

  /** The inner loop of the probe phase over one datagram. */
  method ScanProbe(bytes: seq<Byte>) returns (serial: bool, unknown: bool)
    ensures unknown <==> exists i :: 0 <= i < |Parse(bytes)| && IsUnknownCommand(Parse(bytes)[i])
    ensures !unknown ==> (serial <==> exists i :: 0 <= i < |Parse(bytes)| && IsSerialReply(Parse(bytes)[i]))
  {
    var records := ParseRecords(bytes);
    serial, unknown := false, false;
    for i := 0 to |records|
      invariant serial <==> exists j :: 0 <= j < i && IsSerialReply(records[j])
      invariant forall j :: 0 <= j < i ==> !IsUnknownCommand(records[j])
    {
      if IsSerialReply(records[i]) {
        serial := true;
      }
      if IsUnknownCommand(records[i]) {
        unknown := true;
        return;
      }
    }
  }

  method ProbePhase(probes: seq<Event>) returns (p: Option<Probe>)
    ensures p == First(ProbeOf, probes)
  {
    for i := 0 to |probes|
      invariant forall j :: 0 <= j < i ==> ProbeOf(probes[j]).None?
    {
      match probes[i] {
        case Broken =>
          FirstAt(ProbeOf, probes, i);
          return Some(ProbeBroken);
        case Quiet =>
        case Datagram(fromTarget, bytes) =>
          if fromTarget {
            var serial, unknown := ScanProbe(bytes);
            if unknown {
              FirstAt(ProbeOf, probes, i);
              return Some(ProbeUnknown);
            }
            if serial {
              FirstAt(ProbeOf, probes, i);
              return Some(Alive);
            }
          }
      }
    }
    FirstNone(ProbeOf, probes);
    return None;
  }

  /** The inner loop of the dispatch phase over one datagram. */
  method ScanReply(loco: Word, bytes: seq<Byte>) returns (v: Option<Verdict>)
    ensures v == First((r: Record) => Decision(loco, r), Parse(bytes))
  {
    var records := ParseRecords(bytes);
    ghost var decide := (r: Record) => Decision(loco, r);
    for i := 0 to |records|
      invariant forall j :: 0 <= j < i ==> decide(records[j]).None?
    {
      var rec := records[i];
      if IsUnknownCommand(rec) {
        FirstAt(decide, records, i);
        return Some(Err(UnknownCommand));
      }
      if rec.header != DISPATCH {
        continue;
      }
      var reply := DispatchReply(rec.data);
      if reply.None? || reply.value.0 != loco {
        continue;
      }
      FirstAt(decide, records, i);
      if reply.value.1 == 0 {
        return Some(Err(Rejected));
      }
      return Some(Ok(Slot(reply.value.1)));
    }
    FirstNone(decide, records);
    return None;
  }

  method ReplyPhase(loco: Word, replies: seq<Event>) returns (v: Option<Verdict>)
    ensures v == First((e: Event) => ReplyOf(loco, e), replies)
  {
    ghost var decide := (e: Event) => ReplyOf(loco, e);
    for i := 0 to |replies|
      invariant forall j :: 0 <= j < i ==> decide(replies[j]).None?
    {
      match replies[i] {
        case Broken =>
          FirstAt(decide, replies, i);
          return Some(Err(Io));
        case Quiet =>
        case Datagram(fromTarget, bytes) =>
          if fromTarget {
            v := ScanReply(loco, bytes);
            if v.Some? {
              FirstAt(decide, replies, i);
              return;
            }
          }
      }
    }
    FirstNone(decide, replies);
    return None;
  }

  /**
   `dispatch_addr`: the result is the first decisive record's, and every exit but an
   I/O error has logged off.
   */
  method DispatchAddr(ready: bool, loco: Word, probes: seq<Event>, replies: seq<Event>)
    returns (v: Verdict, sent: seq<seq<Byte>>)
    ensures v == Exchange(ready, loco, probes, replies)
    ensures v != Err(Io) ==> LogsOffLast(sent)
    ensures v == Err(Io) ==> LogoffRequest() !in sent
    ensures !ready ==> sent == []
    ensures ready ==> |sent| > 0 && sent[0] == SerialRequest()
    ensures forall i :: 0 <= i < |sent| ==> sent[i] in {SerialRequest(), DispatchRequest(loco), LogoffRequest()}
  {
    PacketsDiffer(loco);
    if !ready {
      return Err(Io), [];
    }
    sent := [SerialRequest()];
    var probe := ProbePhase(probes);
    if probe == Some(ProbeBroken) {
      return Err(Io), sent;
    }
    if probe == Some(ProbeUnknown) {
      sent := sent + [LogoffRequest()];
      return Err(UnknownCommand), sent;
    }
    sent := sent + [DispatchRequest(loco)];
    var reply := ReplyPhase(loco, replies);
    if reply == Some(Err(Io)) {
      return Err(Io), sent;
    }
    sent := sent + [LogoffRequest()];
    if reply.Some? {
      v := reply.value;
    } else if probe == Some(Alive) {
      v := Ok(NoAck);
    } else {
      v := Err(Unreachable);
    }
  }

  /** LAN_LOGOFF is the last packet and no other. */
  ghost predicate LogsOffLast(sent: seq<seq<Byte>>)
  {
    |sent| > 0 && forall i :: 0 <= i < |sent| ==> (sent[i] == LogoffRequest() <==> i == |sent| - 1)
  }

  lemma PacketsDiffer(loco: Word)
    ensures LogoffRequest() != SerialRequest() && LogoffRequest() != DispatchRequest(loco)
  {
    assert LogoffRequest()[2] == 0x30 && SerialRequest()[2] == 0x10 && DispatchRequest(loco)[2] == 0xA3;
  }

  // ----- what the results mean --------------------------------------------------------------------

  /** Some datagram from the target, received in this phase, holds this record. */
  ghost predicate Received(events: seq<Event>, r: Record)
  {
    exists k :: 0 <= k < |events| && Holds(events[k], r)
  }

  ghost predicate Holds(e: Event, r: Record)
  {
    e.Datagram? && e.fromTarget && r in Parse(e.bytes)
  }

  lemma DecidedBy(loco: Word, replies: seq<Event>, v: Verdict) returns (r: Record)
    requires First((e: Event) => ReplyOf(loco, e), replies) == Some(v) && v != Err(Io)
    ensures Received(replies, r) && Decision(loco, r) == Some(v)
  {
    var decide := (e: Event) => ReplyOf(loco, e);
    FirstIs(decide, replies);
    var k :| 0 <= k < |replies| && decide(replies[k]) == Some(v);
    r := DecidedIn(loco, replies[k], v);
    assert Holds(replies[k], r);
  }

  lemma DecidedIn(loco: Word, e: Event, v: Verdict) returns (r: Record)
    requires ReplyOf(loco, e) == Some(v) && v != Err(Io)
    ensures Holds(e, r) && Decision(loco, r) == Some(v)
  {
    var decide := (x: Record) => Decision(loco, x);
    var records := Parse(e.bytes);
    FirstIs(decide, records);
    var j :| 0 <= j < |records| && decide(records[j]) == Some(v);
    r := records[j];
  }

  /** No record decides for what is reported when nothing decides. */
  lemma NeverDecided(loco: Word, replies: seq<Event>, v: Verdict)
    requires v == Ok(NoAck) || v == Err(Unreachable)
    ensures First((e: Event) => ReplyOf(loco, e), replies) != Some(v)
  {
    if First((e: Event) => ReplyOf(loco, e), replies) == Some(v) {
      var r := DecidedBy(loco, replies, v);
      assert false;
    }
  }

  /** A slot is reported only for a positive answer about this loco in the dispatch phase. */
  lemma SlotMeans(ready: bool, loco: Word, probes: seq<Event>, replies: seq<Event>, n: Byte)
    requires Exchange(ready, loco, probes, replies) == Ok(Slot(n))
    ensures n > 0 && exists r :: Received(replies, r) && r.header == DISPATCH && DispatchReply(r.data) == Some((loco, n))
  {
    var r := DecidedBy(loco, replies, Ok(Slot(n)));
    assert Received(replies, r);
  }

  /** A datagram of records that decide nothing, a record that does, and anything after it. */
  lemma DatagramDecides(loco: Word, others: seq<Record>, r: Record, junk: seq<Byte>)
    requires forall i :: 0 <= i < |others| ==> Fits(others[i]) && Decision(loco, others[i]).None?
    requires Fits(r) && Decision(loco, r).Some?
    ensures ReplyOf(loco, Datagram(true, EncodeAll(others + [r]) + junk)) == Decision(loco, r)
  {
    var decide := (x: Record) => Decision(loco, x);
    ParseEncoded(others + [r], junk, Parse(junk));
    FirstSplit(decide, others, r, Parse(junk));
  }

  /**
   The station's answer about this loco is the result, wherever it stands in its datagram and
   whatever comes after it, when the probe was not refused and nothing decided before it.
   */
  lemma AnswerIsResult(loco: Word, probes: seq<Event>, before: seq<Event>, others: seq<Record>, n: Byte, tail: seq<Byte>,
                       junk: seq<Byte>, after: seq<Event>)
    requires First(ProbeOf, probes).None? || First(ProbeOf, probes) == Some(Alive)
    requires forall k :: 0 <= k < |before| ==> ReplyOf(loco, before[k]).None?
    requires forall i :: 0 <= i < |others| ==> Fits(others[i]) && Decision(loco, others[i]).None?
    requires Fits(Record(DISPATCH, Little(loco) + [n] + tail))
    ensures var e := Datagram(true, EncodeAll(others + [Record(DISPATCH, Little(loco) + [n] + tail)]) + junk);
            Exchange(true, loco, probes, before + [e] + after) == if n == 0 then Err(Rejected) else Ok(Slot(n))
  {
    var r := Record(DISPATCH, Little(loco) + [n] + tail);
    var e := Datagram(true, EncodeAll(others + [r]) + junk);
    AnswerDecides(loco, n, tail);
    DatagramDecides(loco, others, r, junk);
    FirstSplit((x: Event) => ReplyOf(loco, x), before, e, after);
  }

  /** No acknowledgement means the probe was answered and nothing decided in the dispatch phase. */
  lemma NoAckMeans(ready: bool, loco: Word, probes: seq<Event>, replies: seq<Event>)
    requires Exchange(ready, loco, probes, replies) == Ok(NoAck)
    ensures exists r :: Received(probes, r) && IsSerialReply(r)
    ensures forall k :: 0 <= k < |replies| ==> ReplyOf(loco, replies[k]).None?
  {
    var decide := (e: Event) => ReplyOf(loco, e);
    NeverDecided(loco, replies, Ok(NoAck));
    assert Exchange(ready, loco, probes, replies) == Concluded(true, loco, replies);
    FirstIs(decide, replies);
    assert forall j :: 0 <= j < |replies| ==> decide(replies[j]).None?;
    FirstIs(ProbeOf, probes);
    var k :| 0 <= k < |probes| && ProbeOf(probes[k]) == Some(Alive);
    AliveHolds(probes[k]);
    var r :| Holds(probes[k], r) && IsSerialReply(r);
    assert Received(probes, r);
  }

  lemma AliveHolds(e: Event)
    requires ProbeOf(e) == Some(Alive)
    ensures exists r :: Holds(e, r) && IsSerialReply(r)
  {
    var records := Parse(e.bytes);
    var i :| 0 <= i < |records| && IsSerialReply(records[i]);
    assert Holds(e, records[i]);
  }

  /** Unreachable means that no serial reply from the target came in the probe phase. */
  lemma UnreachableMeans(ready: bool, loco: Word, probes: seq<Event>, replies: seq<Event>, r: Record)
    requires Exchange(ready, loco, probes, replies) == Err(Unreachable) && Received(probes, r)
    ensures !IsSerialReply(r)
  {
    NeverDecided(loco, replies, Err(Unreachable));
    FirstIs(ProbeOf, probes);
    var k :| 0 <= k < |probes| && Holds(probes[k], r);
    assert ProbeOf(probes[k]).None?;
    var records := Parse(probes[k].bytes);
    var i :| 0 <= i < |records| && records[i] == r;
    assert !IsSerialReply(records[i]);
  }
}
