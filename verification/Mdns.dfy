/** LongFred OTA announcements over mDNS (`parse_ota_hosts`, `encode_ota_announce`). */
module Mdns {
  import opened Prelude
  import opened Text
  import opened DnsNames

  const TYPE_A: Word := 1
  const TYPE_SRV: Word := 33
  const DOT: Byte := 46

  datatype OtaHost = OtaHost(hostname: string, ipv4: seq<Byte>, port: Word)

  /** A host whose name is still the bytes of a label. */
  datatype RawHost = RawHost(hostname: Label, ipv4: seq<Byte>, port: Word)

  /** `be16`. */
  function Be16(pkt: seq<Byte>, off: nat): (w: Option<Word>)
    ensures w.Some? <==> off + 1 < |pkt|
  {
    if off + 1 < |pkt| then Some(pkt[off] as int * 256 + pkt[off + 1] as int) else None
  }

  // ----- the first label --------------------------------------------------------------

  function BeforeDot(s: seq<Byte>): (r: seq<Byte>)
  {
    if s == [] || s[0] == DOT then [] else [s[0]] + BeforeDot(s[1..])
  }

  lemma {:induction false} BeforeDotIs(s: seq<Byte>)
    ensures var r := BeforeDot(s);
            r <= s && (|r| < |s| ==> s[|r|] == DOT) && DOT !in r && (DOT !in s ==> r == s)
  {
    if s != [] && s[0] != DOT {
      BeforeDotIs(s[1..]);
    }
  }

  /** The labels joined by dots. */
  function Dotted(labels: seq<Label>): (s: seq<Byte>)
  {
    if labels == [] then []
    else if |labels| == 1 then labels[0]
    else labels[0] + [DOT] + Dotted(labels[1..])
  }

  /** `name.split('.').next()`. */
  function Instance(labels: seq<Label>): (h: Label)
  {
    BeforeDot(Dotted(labels))
  }

  lemma {:induction false} BeforeDotStops(a: seq<Byte>, b: seq<Byte>)
    ensures BeforeDot(a + [DOT] + b) == BeforeDot(a)
  {
    var s := a + [DOT] + b;
    if a != [] {
      assert s[0] == a[0] && s[1..] == a[1..] + [DOT] + b;
      BeforeDotStops(a[1..], b);
    }
  }

  /** It is the first label, up to a dot inside that label. */
  lemma InstanceIsFirst(labels: seq<Label>)
    ensures Instance(labels) == if labels == [] then [] else BeforeDot(labels[0])
  {
    if |labels| > 1 {
      BeforeDotStops(labels[0], Dotted(labels[1..]));
    }
  }

  // ----- questions -----------------------------------------------------------------------

  function Skipped(pkt: seq<Byte>, off: nat, qd: nat): (r: Option<nat>)
    decreases qd
  {
    if qd == 0 then Some(off)
    else
      match ReadFrom(pkt, off, 0)
      case None => None
      case Some(n) => Skipped(pkt, n.end + 4, qd - 1)
  }

  /** `skip_questions`. */
  method SkipQuestions(pkt: seq<Byte>, start: nat, qd: Word) returns (r: Option<nat>)
    ensures r == Skipped(pkt, start, qd)
    ensures r.Some? ==> r.value >= start + 5 * qd
  {
    var off := start;
    for i := 0 to qd
      invariant off >= start + 5 * i
      invariant Skipped(pkt, start, qd) == Skipped(pkt, off, qd - i)
    {
      var name := ReadName(pkt, off);
      if name.None? {
        return None;
      }
      off := name.value.1 + 4;
    }
    return Some(off);
  }

  // ----- records ---------------------------------------------------------------------------

  /** What the loop carries from record to record. */
  datatype Scan = Scan(off: nat, port: Word, hostname: Label)

  /** A record's type, and where its data starts and ends. */
  datatype Header = Header(labels: seq<Label>, typ: Word, rdata: nat, rdlen: Word)

  function HeaderAt(pkt: seq<Byte>, off: nat): (h: Option<Header>)
  {
    match ReadFrom(pkt, off, 0)
    case None => None
    case Some(n) =>
      match (Be16(pkt, n.end), Be16(pkt, n.end + 8))
      case (Some(typ), Some(rdlen)) => Some(Header(n.labels, typ, n.end + 10, rdlen))
      case _ => None
  }

  predicate IsSrv(h: Header)
  {
    h.typ == TYPE_SRV && h.rdlen >= 6
  }

  function AfterRecord(pkt: seq<Byte>, s: Scan, h: Header): (s': Scan)
  {
    var p := Be16(pkt, h.rdata + 4);
    Scan(h.rdata + h.rdlen,
         if IsSrv(h) && p.Some? then p.value else s.port,
         if IsSrv(h) then Instance(h.labels) else s.hostname)
  }

  /** The host an address record yields. */
  function Yield(pkt: seq<Byte>, s: Scan, h: Header): (hosts: seq<RawHost>)
  {
    if h.typ == TYPE_A && h.rdlen == 4 && h.rdata + 4 <= |pkt| then
      [RawHost(if s.hostname == [] then Instance(h.labels) else s.hostname, pkt[h.rdata..h.rdata + 4], s.port)]
    else []
  }

  /** One turn of the record loop: what it finds and how it goes on. */
  datatype Taken = Taken(next: Scan, found: seq<RawHost>)

  function TurnAt(pkt: seq<Byte>, s: Scan): (t: Option<Taken>)
  {
    match HeaderAt(pkt, s.off)
    case None => None
    case Some(h) => Some(Taken(AfterRecord(pkt, s, h), Yield(pkt, AfterRecord(pkt, s, h), h)))
  }

  /** How a turn is taken. The loop below is proved for any such way. */
  type Taker = Scan -> Option<Taken>

  function Taking(pkt: seq<Byte>): (take: Taker)
  {
    (s: Scan) => TurnAt(pkt, s)
  }

  function Hosts(take: Taker, s: Scan, n: nat): (hosts: seq<RawHost>)
    decreases n
  {
    if n == 0 then []
    else
      match take(s)
      case None => []
      case Some(t) => t.found + Hosts(take, t.next, n - 1)
  }

  function Count(pkt: seq<Byte>, off: nat): (n: Word)
  {
    if Be16(pkt, off).Some? then Be16(pkt, off).value else 0
  }

  function AddSaturating(a: Word, b: Word): (c: Word)
  {
    if a + b < 0x1_0000 then a + b else 0xFFFF
  }

  function RecordCount(pkt: seq<Byte>): (n: Word)
  {
    AddSaturating(AddSaturating(Count(pkt, 6), Count(pkt, 8)), Count(pkt, 10))
  }

  const StartPort: Word := 80

  function Parsed(pkt: seq<Byte>): (hosts: seq<RawHost>)
  {
    if |pkt| < 12 then []
    else
      match Skipped(pkt, 12, Count(pkt, 4))
      case None => []
      case Some(off) => Hosts(Taking(pkt), Scan(off, StartPort, []), RecordCount(pkt))
  }

  lemma HostsTurn(take: Taker, s: Scan, n: nat, out: seq<RawHost>, t: Taken)
    requires n > 0 && take(s) == Some(t)
    ensures out + Hosts(take, s, n) == (out + t.found) + Hosts(take, t.next, n - 1)
  {
    Assoc(out, t.found, Hosts(take, t.next, n - 1));
  }

  lemma HostsEnd(take: Taker, s: Scan, n: nat, out: seq<RawHost>)
    requires n == 0 || take(s).None?
    ensures out + Hosts(take, s, n) == out
  {
  }

  // ----- the record loop, on text ------------------------------------------------------------

  function Shown(h: RawHost): (t: OtaHost)
  {
    OtaHost(TextOf(h.hostname), h.ipv4, h.port)
  }

  function AllShown(hosts: seq<RawHost>): (all: seq<OtaHost>)
    ensures |all| == |hosts| && forall i :: 0 <= i < |hosts| ==> all[i] == Shown(hosts[i])
  {
    seq(|hosts|, i requires 0 <= i < |hosts| => Shown(hosts[i]))
  }

  /** `name.split('.').next()`. */
  function FirstPart(name: string): (s: string)
  {
    Split(name, '.')[0]
  }

  lemma FirstPartIs(name: string)
    ensures FirstPart(name) == name[..IndexOf(name, '.')]
  {
  }

  lemma CharsCut(l: Label)
    ensures CutAtDot(Chars(BeforeDot(l)), Chars(l))
  {
    BeforeDotIs(l);
    var t, s := Chars(BeforeDot(l)), Chars(l);
    assert t == s[..|t|];
  }

  lemma CutOfJoin(t: string, s: string, rest: string)
    requires CutAtDot(t, s)
    ensures CutAtDot(t, s + ['.'] + rest)
  {
    assert (s + ['.'] + rest)[..|t|] == s[..|t|];
  }

  /** The first part of a name as text is its first label, up to a dot, as text. */
  lemma FirstPartText(labels: seq<Label>)
    ensures FirstPart(NameText(labels)) == TextOf(Instance(labels))
  {
    var name := NameText(labels);
    FirstPartIs(name);
    InstanceIsFirst(labels);
    if labels != [] {
      var t, s := TextOf(BeforeDot(labels[0])), TextOf(labels[0]);
      CharsCut(labels[0]);
      LossyCut(Chars(BeforeDot(labels[0])), Chars(labels[0]));
      if |labels| > 1 {
        CutOfJoin(t, s, Join(Texts(labels)[1..], '.'));
      }
      CutIs(t, name);
    }
  }

  lemma EmptyText(l: Label)
    ensures TextOf(l) == "" <==> l == []
  {
    LossyLength(Chars(l));
  }

  /** A record's start as the loop reads it: the name is text. */
  datatype TextHeader = TextHeader(name: string, typ: Word, rdata: nat, rdlen: Word)

  ghost predicate SameHeader(t: TextHeader, h: Header)
  {
    t == TextHeader(NameText(h.labels), h.typ, h.rdata, h.rdlen)
  }

  /** The start of a turn of the record loop: name, type and data length. */
  method ReadHeader(pkt: seq<Byte>, off: nat) returns (t: Option<TextHeader>)
    ensures t.Some? <==> HeaderAt(pkt, off).Some?
    ensures t.Some? ==> SameHeader(t.value, HeaderAt(pkt, off).value)
  {
    var name := ReadName(pkt, off);
    if name.None? {
      return None;
    }
    var (text, end) := name.value;
    var typ, rdlen := Be16(pkt, end), Be16(pkt, end + 8);
    if typ.None? || rdlen.None? {
      return None;
    }
    return Some(TextHeader(text, typ.value, end + 10, rdlen.value));
  }

  /** The rest of the turn. */
  method UseHeader(pkt: seq<Byte>, ghost s: Scan, port: Word, hostname: string, t: TextHeader, ghost h: Header)
    returns (port': Word, hostname': string, hosts: seq<OtaHost>)
    requires SameHeader(t, h) && port == s.port && hostname == TextOf(s.hostname)
    ensures var next := AfterRecord(pkt, s, h);
            port' == next.port && hostname' == TextOf(next.hostname) && hosts == AllShown(Yield(pkt, next, h))
  {
    port', hostname', hosts := port, hostname, [];
    FirstPartText(h.labels);
    if t.typ == TYPE_SRV && t.rdlen >= 6 {
      var p := Be16(pkt, t.rdata + 4);
      if p.Some? {
        port' := p.value;
      }
      hostname' := FirstPart(t.name);
    }
    EmptyText(AfterRecord(pkt, s, h).hostname);
    if t.typ == TYPE_A && t.rdlen == 4 && t.rdata + 4 <= |pkt| {
      var host := if hostname' == "" then FirstPart(t.name) else hostname';
      hosts := [OtaHost(host, pkt[t.rdata..t.rdata + 4], port')];
    }
  }

  ghost predicate TakesAs(take: Taker, pkt: seq<Byte>)
  {
    forall s: Scan {:trigger TurnAt(pkt, s)} :: take(s) == TurnAt(pkt, s)
  }

  /** What a turn leaves, as text: the next offset, port and name, and the hosts found. */
  datatype TextTurn = TextTurn(off: nat, port: Word, hostname: string, hosts: seq<OtaHost>)

  ghost predicate SameTurn(t: TextTurn, raw: Taken)
  {
    t == TextTurn(raw.next.off, raw.next.port, TextOf(raw.next.hostname), AllShown(raw.found))
  }

  /** A whole turn. */
  method TakeRecord(ghost take: Taker, pkt: seq<Byte>, ghost s: Scan, off: nat, port: Word, hostname: string) returns (t: Option<TextTurn>)
    requires TakesAs(take, pkt) && off == s.off && port == s.port && hostname == TextOf(s.hostname)
    ensures t.Some? <==> take(s).Some?
    ensures t.Some? ==> SameTurn(t.value, take(s).value)
  {
    assert take(s) == TurnAt(pkt, s);
    var header := ReadHeader(pkt, off);
    if header.None? {
      return None;
    }
    var h := header.value;
    var port', hostname', hosts := UseHeader(pkt, s, port, hostname, h, HeaderAt(pkt, off).value);
    return Some(TextTurn(h.rdata + h.rdlen, port', hostname', hosts));
  }

  lemma ShownAppend(a: seq<RawHost>, b: seq<RawHost>)
    ensures AllShown(a + b) == AllShown(a) + AllShown(b)
  {
  }

  /** The record loop of `parse_ota_hosts`. */
  method ScanRecords(ghost take: Taker, pkt: seq<Byte>, start: nat, count: Word) returns (out: seq<OtaHost>)
    requires TakesAs(take, pkt)
    ensures out == AllShown(Hosts(take, Scan(start, StartPort, []), count))
  {
    out := [];
    var off: nat := start;
    var port := StartPort;
    var hostname := "";
    ghost var s := Scan(start, StartPort, []);
    ghost var found: seq<RawHost> := [];
    ghost var all := Hosts(take, s, count);
    assert [] + all == all;
    EmptyText([]);
    var left: nat := count;
    while left > 0
      invariant off == s.off && port == s.port && hostname == TextOf(s.hostname)
      invariant out == AllShown(found) && all == found + Hosts(take, s, left)
    {
      var t := TakeRecord(take, pkt, s, off, port, hostname);
      if t.None? {
        HostsEnd(take, s, left, found);
        return;
      }
      HostsTurn(take, s, left, found, take(s).value);
      ShownAppend(found, take(s).value.found);
      found, s := found + take(s).value.found, take(s).value.next;
      off, port, hostname := t.value.off, t.value.port, t.value.hostname;
      out := out + t.value.hosts;
      left := left - 1;
    }
    HostsEnd(take, s, left, found);
  }

  /** `parse_ota_hosts`. */
  method ParseOtaHosts(pkt: seq<Byte>) returns (out: seq<OtaHost>)
    ensures out == AllShown(Parsed(pkt))
  {
    if |pkt| < 12 {
      return [];
    }
    var off := SkipQuestions(pkt, 12, Count(pkt, 4));
    if off.None? {
      return [];
    }
    out := ScanRecords(Taking(pkt), pkt, off.value, RecordCount(pkt));
  }

  // ----- every host found has a usable name ------------------------------------------------------

  ghost predicate ShortName(l: Label)
  {
    |l| <= 191 && DOT !in l
  }

  lemma InstanceShortened(labels: seq<Label>)
    requires Readable(labels)
    ensures ShortName(Instance(labels))
  {
    InstanceIsFirst(labels);
    if labels != [] {
      assert ReadableLabel(labels[0]);
      BeforeDotIs(labels[0]);
    }
  }

  lemma InstanceShort(pkt: seq<Byte>, off: nat)
    requires HeaderAt(pkt, off).Some?
    ensures ShortName(Instance(HeaderAt(pkt, off).value.labels))
  {
    LabelsReadable(pkt, off, 0);
    InstanceShortened(ReadFrom(pkt, off, 0).value.labels);
  }

  /** Names stay short along a turn. */
  ghost predicate KeepsShort(take: Taker)
  {
    forall s: Scan :: ShortName(s.hostname) && take(s).Some? ==> ShortTurn(take(s).value)
  }

  ghost predicate ShortTurn(t: Taken)
  {
    ShortName(t.next.hostname) && forall i :: 0 <= i < |t.found| ==> ShortName(t.found[i].hostname)
  }

  lemma {:induction false} HostsShort(take: Taker, s: Scan, n: nat, i: nat)
    requires KeepsShort(take) && ShortName(s.hostname) && i < |Hosts(take, s, n)|
    ensures ShortName(Hosts(take, s, n)[i].hostname)
    decreases n
  {
    var t := take(s).value;
    assert ShortTurn(t);
    if i >= |t.found| {
      HostsShort(take, t.next, n - 1, i - |t.found|);
    }
  }

  lemma TurnShort(pkt: seq<Byte>, s: Scan)
    requires ShortName(s.hostname) && TurnAt(pkt, s).Some?
    ensures ShortTurn(TurnAt(pkt, s).value)
  {
    InstanceShort(pkt, s.off);
  }

  lemma ShortText(l: Label)
    requires ShortName(l)
    ensures var t := TextOf(l); |t| <= 573 && '.' !in t && IsUtf8(t)
  {
    assert '.' !in Chars(l);
    LossyLength(Chars(l));
    LossyCut(Chars(l), Chars(l));
    LossyIsUtf8(Chars(l));
  }

  /** No packet yields a host name that comes from more than 191 bytes, is longer than 573, or holds a dot. */
  lemma ParsedShort(pkt: seq<Byte>, i: nat)
    requires i < |Parsed(pkt)|
    ensures ShortName(Parsed(pkt)[i].hostname)
    ensures var name := AllShown(Parsed(pkt))[i].hostname; |name| <= 573 && '.' !in name && IsUtf8(name)
  {
    RawShort(pkt, i);
    ShortText(Parsed(pkt)[i].hostname);
  }

  lemma RawShort(pkt: seq<Byte>, i: nat)
    requires i < |Parsed(pkt)|
    ensures ShortName(Parsed(pkt)[i].hostname)
  {
    forall s: Scan | ShortName(s.hostname) && Taking(pkt)(s).Some? ensures ShortTurn(Taking(pkt)(s).value) {
      TurnShort(pkt, s);
    }
    var off := Skipped(pkt, 12, Count(pkt, 4)).value;
    HostsShort(Taking(pkt), Scan(off, StartPort, []), RecordCount(pkt), i);
  }

  // ----- announcements ---------------------------------------------------------------------------

  function Be(w: Word): (b: seq<Byte>)
    ensures |b| == 2 && Be16(b, 0) == Some(w)
  {
    [w / 256, w % 256]
  }

  /** The length of the data as the encoder writes it. */
  function DataLength(n: nat): (w: Word)
  {
    if n < 0x1_0000 then n else 0
  }

  /** Type, class IN and a time to live of two minutes. */
  function FixedBytes(typ: Byte): (b: seq<Byte>)
    ensures |b| == 8
  {
    [0, typ, 0, 1, 0, 0, 0, 120]
  }

  function RecordBytes(labels: seq<Label>, typ: Byte, rdata: seq<Byte>): (b: seq<Byte>)
  {
    NameBytes(labels) + (FixedBytes(typ) + (Be(DataLength(|rdata|)) + rdata))
  }

  const Ota: Label := [95, 108, 111, 110, 103, 102, 114, 101, 100, 45, 111, 116, 97]
  const Tcp: Label := [95, 116, 99, 112]
  const Local: Label := [108, 111, 99, 97, 108]

  function ServiceName(): (n: seq<Label>) { [Ota, Tcp, Local] }
  function InstanceName(h: Label): (n: seq<Label>) { [h, Ota, Tcp, Local] }
  function TargetName(h: Label): (n: seq<Label>) { [h, Local] }

  function PtrRecord(h: Label): seq<Byte>
  {
    RecordBytes(ServiceName(), 12, NameBytes(InstanceName(h)))
  }

  function SrvData(h: Label, port: Word): seq<Byte>
  {
    [0, 0, 0, 0] + (Be(port) + NameBytes(TargetName(h)))
  }

  function SrvRecord(h: Label, port: Word): seq<Byte>
  {
    RecordBytes(InstanceName(h), 33, SrvData(h, port))
  }

  function ARecord(h: Label, ipv4: seq<Byte>): seq<Byte>
  {
    RecordBytes(TargetName(h), 1, ipv4)
  }

  function Answers(h: Label, ipv4: seq<Byte>, port: Word): seq<Byte>
  {
    PtrRecord(h) + (SrvRecord(h, port) + ARecord(h, ipv4))
  }

  function PacketHeader(): (b: seq<Byte>) { [0, 0, 0x84, 0, 0, 0, 0, 3, 0, 0, 0, 0] }

  function Announcement(h: Label, ipv4: seq<Byte>, port: Word): (pkt: seq<Byte>)
  {
    PacketHeader() + Answers(h, ipv4, port)
  }

  /** One record appended to the buffer. */
  method PutRecord(buf: seq<Byte>, labels: seq<Label>, typ: Byte, rdata: seq<Byte>) returns (out: seq<Byte>)
    ensures out == buf + RecordBytes(labels, typ, rdata)
  {
    out := PutName(buf, labels);
    out := out + FixedBytes(typ);
    out := out + Be(DataLength(|rdata|));
    out := out + rdata;
    FourParts(buf, NameBytes(labels), FixedBytes(typ), Be(DataLength(|rdata|)), rdata);
  }

  lemma FourParts(a: seq<Byte>, b: seq<Byte>, c: seq<Byte>, d: seq<Byte>, e: seq<Byte>)
    ensures ((((a + b) + c) + d) + e) == a + (b + (c + (d + e)))
  {
  }

  /** `encode_ota_announce`. */
  method EncodeOtaAnnounce(h: Label, ipv4: seq<Byte>, port: Word) returns (n: seq<Byte>)
    ensures n == Announcement(h, ipv4, port)
  {
    n := PacketHeader();
    var instance := PutName([], InstanceName(h));
    var target := PutName([], TargetName(h));
    assert instance == NameBytes(InstanceName(h)) && target == NameBytes(TargetName(h));
    n := PutRecord(n, ServiceName(), 12, instance);
    n := PutRecord(n, InstanceName(h), 33, [0, 0, 0, 0] + (Be(port) + target));
    n := PutRecord(n, TargetName(h), 1, ipv4);
    Assoc(PacketHeader(), PtrRecord(h), SrvRecord(h, port));
    Assoc(PacketHeader() + PtrRecord(h), SrvRecord(h, port), ARecord(h, ipv4));
    Assoc(PacketHeader(), PtrRecord(h), SrvRecord(h, port) + ARecord(h, ipv4));
  }

  // ----- reading an announcement --------------------------------------------------------------------

  lemma BeAt(pkt: seq<Byte>, off: nat, w: Word)
    requires At(pkt, off, Be(w))
    ensures Be16(pkt, off) == Some(w)
  {
    AtByte(pkt, off, Be(w), 0);
    AtByte(pkt, off, Be(w), 1);
  }

  lemma RecordParts(pkt: seq<Byte>, off: nat, labels: seq<Label>, typ: Byte, rdata: seq<Byte>)
    requires At(pkt, off, RecordBytes(labels, typ, rdata))
    ensures var end := off + |NameBytes(labels)|;
            && At(pkt, off, NameBytes(labels)) && At(pkt, end, FixedBytes(typ))
            && At(pkt, end + 8, Be(DataLength(|rdata|))) && At(pkt, end + 10, rdata)
  {
    var name, fixed, len := NameBytes(labels), FixedBytes(typ), Be(DataLength(|rdata|));
    AtSplit(pkt, off, name, fixed + (len + rdata));
    AtSplit(pkt, off + |name|, fixed, len + rdata);
    AtSplit(pkt, off + |name| + 8, len, rdata);
  }

  lemma FixedAt(pkt: seq<Byte>, off: nat, typ: Byte)
    requires At(pkt, off, FixedBytes(typ))
    ensures Be16(pkt, off) == Some(typ)
  {
    AtByte(pkt, off, FixedBytes(typ), 0);
    AtByte(pkt, off, FixedBytes(typ), 1);
  }

  lemma RecordLength(labels: seq<Label>, typ: Byte, rdata: seq<Byte>)
    ensures |RecordBytes(labels, typ, rdata)| == |NameBytes(labels)| + 10 + |rdata|
  {
  }

  /** A record that stands in a packet is read with its name, type and data. */
  lemma RecordRead(pkt: seq<Byte>, off: nat, labels: seq<Label>, typ: Byte, rdata: seq<Byte>)
    requires Readable(labels) && |rdata| < 0x1_0000 && At(pkt, off, RecordBytes(labels, typ, rdata))
    ensures var d := off + |NameBytes(labels)| + 10;
            && HeaderAt(pkt, off) == Some(Header(labels, typ, d, |rdata|)) && At(pkt, d, rdata)
            && d + |rdata| == off + |RecordBytes(labels, typ, rdata)|
  {
    RecordParts(pkt, off, labels, typ, rdata);
    RecordLength(labels, typ, rdata);
    ReadPlain(pkt, off, labels, 0);
    FixedAt(pkt, off + |NameBytes(labels)|, typ);
    BeAt(pkt, off + |NameBytes(labels)| + 8, |rdata|);
  }

  lemma SrvPort(pkt: seq<Byte>, off: nat, h: Label, port: Word)
    requires At(pkt, off, SrvData(h, port))
    ensures Be16(pkt, off + 4) == Some(port)
  {
    AtSplit(pkt, off, [0, 0, 0, 0], Be(port) + NameBytes(TargetName(h)));
    AtSplit(pkt, off + 4, Be(port), NameBytes(TargetName(h)));
    BeAt(pkt, off + 4, port);
  }

  lemma SrvLength(h: Label, port: Word)
    ensures |SrvData(h, port)| == 6 + |NameBytes(TargetName(h))|
  {
  }

  lemma {:induction false} NameLength(labels: seq<Label>, most: nat)
    requires forall i :: 0 <= i < |labels| ==> |labels[i]| <= most
    ensures |NameBytes(labels)| <= |labels| * (most + 1) + 1
  {
    if labels != [] {
      NameLength(labels[1..], most);
    }
  }

  lemma NamesReadable(h: Label)
    requires ReadableLabel(h)
    ensures Readable(ServiceName()) && Readable(InstanceName(h)) && Readable(TargetName(h))
    ensures |NameBytes(InstanceName(h))| < 1000 && |NameBytes(TargetName(h))| < 1000
  {
    NameLength(InstanceName(h), 191);
    NameLength(TargetName(h), 191);
  }

  // One lemma per record: what a turn makes of it.

  lemma PtrTurn(take: Taker, pkt: seq<Byte>, s: Scan, h: Label)
    requires TakesAs(take, pkt) && |NameBytes(InstanceName(h))| < 1000 && At(pkt, s.off, PtrRecord(h))
    ensures take(s) == Some(Taken(s.(off := s.off + |PtrRecord(h)|), []))
  {
    assert take(s) == TurnAt(pkt, s);
    RecordRead(pkt, s.off, ServiceName(), 12, NameBytes(InstanceName(h)));
  }

  lemma InstanceOfHost(h: Label)
    requires DOT !in h
    ensures Instance(InstanceName(h)) == h
  {
    InstanceIsFirst(InstanceName(h));
    BeforeDotIs(h);
  }

  lemma SrvAfter(pkt: seq<Byte>, s: Scan, h: Header, port: Word, host: Label)
    requires IsSrv(h) && Be16(pkt, h.rdata + 4) == Some(port) && Instance(h.labels) == host
    ensures var next := Scan(h.rdata + h.rdlen, port, host);
            AfterRecord(pkt, s, h) == next && Yield(pkt, next, h) == []
  {
  }

  lemma SrvTurnOf(pkt: seq<Byte>, s: Scan, labels: seq<Label>, data: seq<Byte>, h: Label, port: Word)
    requires Readable(labels) && 6 <= |data| < 0x1_0000 && data == SrvData(h, port) && Instance(labels) == h
    requires At(pkt, s.off, RecordBytes(labels, 33, data))
    ensures TurnAt(pkt, s) == Some(Taken(Scan(s.off + |RecordBytes(labels, 33, data)|, port, h), []))
  {
    var d := s.off + |NameBytes(labels)| + 10;
    RecordRead(pkt, s.off, labels, 33, data);
    SrvPort(pkt, d, h, port);
    SrvAfter(pkt, s, Header(labels, 33, d, |data|), port, h);
  }

  lemma SrvTurn(take: Taker, pkt: seq<Byte>, s: Scan, h: Label, port: Word)
    requires TakesAs(take, pkt) && ReadableLabel(h) && DOT !in h && At(pkt, s.off, SrvRecord(h, port))
    ensures take(s) == Some(Taken(Scan(s.off + |SrvRecord(h, port)|, port, h), []))
  {
    NamesReadable(h);
    SrvLength(h, port);
    InstanceOfHost(h);
    assert take(s) == TurnAt(pkt, s);
    SrvTurnOf(pkt, s, InstanceName(h), SrvData(h, port), h, port);
  }

  lemma ATurn(take: Taker, pkt: seq<Byte>, s: Scan, h: Label, ipv4: seq<Byte>)
    requires TakesAs(take, pkt) && ReadableLabel(h) && |ipv4| == 4 && s.hostname != [] && At(pkt, s.off, ARecord(h, ipv4))
    ensures take(s).Some? && take(s).value.found == [RawHost(s.hostname, ipv4, s.port)]
  {
    assert take(s) == TurnAt(pkt, s);
    NamesReadable(h);
    RecordRead(pkt, s.off, TargetName(h), 1, ipv4);
  }

  lemma AnswersAt(pkt: seq<Byte>, off: nat, h: Label, ipv4: seq<Byte>, port: Word)
    requires At(pkt, off, Answers(h, ipv4, port))
    ensures var off2 := off + |PtrRecord(h)|;
            && At(pkt, off, PtrRecord(h)) && At(pkt, off2, SrvRecord(h, port))
            && At(pkt, off2 + |SrvRecord(h, port)|, ARecord(h, ipv4))
  {
    AtSplit(pkt, off, PtrRecord(h), SrvRecord(h, port) + ARecord(h, ipv4));
    AtSplit(pkt, off + |PtrRecord(h)|, SrvRecord(h, port), ARecord(h, ipv4));
  }

  /** A turn that finds nothing only moves the scan. */
  lemma HostsStep(take: Taker, s: Scan, next: Scan, n: nat)
    requires n > 0 && take(s) == Some(Taken(next, []))
    ensures Hosts(take, s, n) == Hosts(take, next, n - 1)
  {
    assert [] + Hosts(take, next, n - 1) == Hosts(take, next, n - 1);
  }

  lemma HostsLast(take: Taker, s: Scan, host: RawHost, n: nat)
    requires n == 1 && take(s).Some? && take(s).value.found == [host]
    ensures Hosts(take, s, n) == [host]
  {
    assert [host] + [] == [host];
  }

  /** Two turns that find nothing and one that finds a host. */
  lemma ThreeTaken(take: Taker, s1: Scan, s2: Scan, s3: Scan, host: RawHost, n: nat)
    requires n == 3 && take(s1) == Some(Taken(s2, [])) && take(s2) == Some(Taken(s3, []))
    requires take(s3).Some? && take(s3).value.found == [host]
    ensures Hosts(take, s1, n) == [host]
  {
    HostsStep(take, s1, s2, n);
    HostsStep(take, s2, s3, n - 1);
    HostsLast(take, s3, host, n - 2);
  }

  /** The three answers yield the host, wherever they stand in a packet. */
  lemma AnswersScanned(take: Taker, pkt: seq<Byte>, off: nat, h: Label, ipv4: seq<Byte>, port: Word, n: nat)
    requires TakesAs(take, pkt) && n == 3 && ReadableLabel(h) && DOT !in h && |ipv4| == 4 && At(pkt, off, Answers(h, ipv4, port))
    ensures Hosts(take, Scan(off, StartPort, []), n) == [RawHost(h, ipv4, port)]
  {
    AnswersAt(pkt, off, h, ipv4, port);
    NamesReadable(h);
    var s1 := Scan(off, StartPort, []);
    var s2 := s1.(off := off + |PtrRecord(h)|);
    var s3 := Scan(s2.off + |SrvRecord(h, port)|, port, h);
    PtrTurn(take, pkt, s1, h);
    SrvTurn(take, pkt, s2, h, port);
    ATurn(take, pkt, s3, h, ipv4);
    ThreeTaken(take, s1, s2, s3, RawHost(h, ipv4, port), n);
  }

  /**
   Any packet that counts three records after its questions, and whose questions are
   well formed and followed by the answers, yields exactly the announced host.
   */
  lemma AnnouncedWithQuestions(pkt: seq<Byte>, off: nat, h: Label, ipv4: seq<Byte>, port: Word)
    requires |pkt| >= 12 && RecordCount(pkt) == 3 && Skipped(pkt, 12, Count(pkt, 4)) == Some(off)
    requires ReadableLabel(h) && DOT !in h && |ipv4| == 4 && At(pkt, off, Answers(h, ipv4, port))
    ensures Parsed(pkt) == [RawHost(h, ipv4, port)]
  {
    AnswersScanned(Taking(pkt), pkt, off, h, ipv4, port, RecordCount(pkt));
  }

  /** A question with its name written out. */
  datatype Question = Question(labels: seq<Label>, typ: Word, class_: Word)

  ghost predicate ValidQuestions(qs: seq<Question>)
  {
    forall i :: 0 <= i < |qs| ==> Readable(qs[i].labels)
  }

  function QuestionBytes(q: Question): (b: seq<Byte>)
  {
    NameBytes(q.labels) + (Be(q.typ) + Be(q.class_))
  }

  function QuestionsBytes(qs: seq<Question>): (b: seq<Byte>)
  {
    if qs == [] then [] else QuestionBytes(qs[0]) + QuestionsBytes(qs[1..])
  }

  lemma QuestionRead(pkt: seq<Byte>, off: nat, q: Question, n: nat)
    requires n > 0 && Readable(q.labels) && At(pkt, off, QuestionBytes(q))
    ensures Skipped(pkt, off, n) == Skipped(pkt, off + |QuestionBytes(q)|, n - 1)
  {
    AtSplit(pkt, off, NameBytes(q.labels), Be(q.typ) + Be(q.class_));
    ReadPlain(pkt, off, q.labels, 0);
  }

  lemma {:induction false} QuestionsSkipped(pkt: seq<Byte>, off: nat, qs: seq<Question>, end: nat, n: nat)
    requires n == |qs| && ValidQuestions(qs) && At(pkt, off, QuestionsBytes(qs)) && end == off + |QuestionsBytes(qs)|
    ensures Skipped(pkt, off, n) == Some(end)
    decreases n
  {
    if qs != [] {
      var next := off + |QuestionBytes(qs[0])|;
      AtSplit(pkt, off, QuestionBytes(qs[0]), QuestionsBytes(qs[1..]));
      QuestionRead(pkt, off, qs[0], n);
      QuestionsSkipped(pkt, next, qs[1..], end, n - 1);
    }
  }

  /** The announcement with questions in front, counted in its header. */
  function Asked(qs: seq<Question>, h: Label, ipv4: seq<Byte>, port: Word): (pkt: seq<Byte>)
    requires |qs| < 0x1_0000
  {
    QuestionHeader(|qs|) + (QuestionsBytes(qs) + Answers(h, ipv4, port))
  }

  function QuestionHeader(n: Word): (b: seq<Byte>)
    ensures |b| == 12
  {
    [0, 0, 0x84, 0, n / 256, n % 256, 0, 3, 0, 0, 0, 0]
  }

  lemma HeaderRead(pkt: seq<Byte>, n: Word)
    requires At(pkt, 0, QuestionHeader(n))
    ensures Count(pkt, 4) == n && RecordCount(pkt) == 3
  {
    var b := QuestionHeader(n);
    forall i | 0 <= i < 12 ensures pkt[i] == b[i] {
      AtByte(pkt, 0, b, i);
    }
  }

  lemma AtWhole(a: seq<Byte>, b: seq<Byte>)
    ensures At(a + b, 0, a) && At(a + b, |a|, b)
  {
    assert (a + b)[0..0 + |a|] == a;
    assert (a + b)[|a|..|a| + |b|] == b;
  }

  lemma AskedLayout(pkt: seq<Byte>, n: Word, questions: seq<Byte>, answers: seq<Byte>)
    requires pkt == QuestionHeader(n) + (questions + answers)
    ensures |pkt| >= 12 && RecordCount(pkt) == 3 && Count(pkt, 4) == n
    ensures At(pkt, 12, questions) && At(pkt, 12 + |questions|, answers)
  {
    AtWhole(QuestionHeader(n), questions + answers);
    HeaderRead(pkt, n);
    AtSplit(pkt, 12, questions, answers);
  }

  /** Any number of questions may stand in front. */
  lemma QuestionsDoNotMatter(qs: seq<Question>, h: Label, ipv4: seq<Byte>, port: Word)
    requires |qs| < 0x1_0000 && ValidQuestions(qs)
    requires ReadableLabel(h) && DOT !in h && |ipv4| == 4
    ensures Parsed(Asked(qs, h, ipv4, port)) == [RawHost(h, ipv4, port)]
  {
    var pkt := Asked(qs, h, ipv4, port);
    AskedLayout(pkt, |qs|, QuestionsBytes(qs), Answers(h, ipv4, port));
    AnswersAfterQuestions(pkt, qs, h, ipv4, port);
  }

  lemma AnswersAfterQuestions(pkt: seq<Byte>, qs: seq<Question>, h: Label, ipv4: seq<Byte>, port: Word)
    requires |pkt| >= 12 && RecordCount(pkt) == 3 && Count(pkt, 4) == |qs|
    requires ValidQuestions(qs) && At(pkt, 12, QuestionsBytes(qs))
    requires ReadableLabel(h) && DOT !in h && |ipv4| == 4 && At(pkt, 12 + |QuestionsBytes(qs)|, Answers(h, ipv4, port))
    ensures Parsed(pkt) == [RawHost(h, ipv4, port)]
  {
    QuestionsSkipped(pkt, 12, qs, 12 + |QuestionsBytes(qs)|, Count(pkt, 4));
    AnnouncedWithQuestions(pkt, 12 + |QuestionsBytes(qs)|, h, ipv4, port);
  }

  // ----- exactly which labels survive ------------------------------------------------------------------

  /** With an empty label the service record is misread and its length runs past the packet. */
  lemma EmptyLabelLost(h: Label, ipv4: seq<Byte>, port: Word)
    requires |h| == 0 && |ipv4| == 4
    ensures Parsed(Announcement(h, ipv4, port)) == []
  {
    var pkt := Announcement(h, ipv4, port);
    NoQuestions(h, ipv4, port);
    AskedLayout(pkt, 0, [], Answers(h, ipv4, port));
    EmptyLength(h, ipv4, port);
    EmptyAnswersLost(Taking(pkt), pkt, 12, h, ipv4, port, RecordCount(pkt));
  }

  lemma NoQuestions(h: Label, ipv4: seq<Byte>, port: Word)
    ensures Announcement(h, ipv4, port) == Asked([], h, ipv4, port)
  {
    assert PacketHeader() == QuestionHeader(0);
    assert [] + Answers(h, ipv4, port) == Answers(h, ipv4, port);
  }

  lemma EmptyLength(h: Label, ipv4: seq<Byte>, port: Word)
    requires |h| == 0 && |ipv4| == 4
    ensures |Announcement(h, ipv4, port)| < 1000
  {
    NameLength(ServiceName(), 13);
    NameLength(InstanceName(h), 13);
    NameLength(TargetName(h), 13);
    SrvLength(h, port);
    RecordLength(ServiceName(), 12, NameBytes(InstanceName(h)));
    RecordLength(InstanceName(h), 33, SrvData(h, port));
    RecordLength(TargetName(h), 1, ipv4);
  }

  lemma EmptyAnswersLost(take: Taker, pkt: seq<Byte>, off: nat, h: Label, ipv4: seq<Byte>, port: Word, n: nat)
    requires TakesAs(take, pkt) && n == 3 && |h| == 0 && |ipv4| == 4 && At(pkt, off, Answers(h, ipv4, port)) && |pkt| < 1000 + off
    ensures Hosts(take, Scan(off, StartPort, []), n) == []
  {
    AnswersAt(pkt, off, h, ipv4, port);
    NameLength(InstanceName(h), 191);
    var s1 := Scan(off, StartPort, []);
    var s2 := s1.(off := off + |PtrRecord(h)|);
    PtrTurn(take, pkt, s1, h);
    EmptyTurn(take, pkt, s2, h, port);
    RunsOff(take, s1, s2, s2.(off := s2.off + 11 + 101 * 256 + 100), n);
  }

  lemma EmptyTurn(take: Taker, pkt: seq<Byte>, s: Scan, h: Label, port: Word)
    requires TakesAs(take, pkt) && |h| == 0 && At(pkt, s.off, SrvRecord(h, port)) && |pkt| < 1000 + s.off
    ensures var next := s.(off := s.off + 11 + 101 * 256 + 100);
            take(s) == Some(Taken(next, [])) && take(next).None?
  {
    assert take(s) == TurnAt(pkt, s);
    var next := s.(off := s.off + 11 + 101 * 256 + 100);
    assert take(next) == TurnAt(pkt, next);
    RecordParts(pkt, s.off, InstanceName(h), 33, SrvData(h, port));
    EmptyHeader(pkt, s.off, h);
  }

  lemma RunsOff(take: Taker, s1: Scan, s2: Scan, s3: Scan, n: nat)
    requires n == 3 && take(s1) == Some(Taken(s2, [])) && take(s2) == Some(Taken(s3, [])) && take(s3).None?
    ensures Hosts(take, s1, n) == []
  {
    HostsStep(take, s1, s2, n);
    HostsStep(take, s2, s3, n - 1);
    HostsEnd(take, s3, n - 2, []);
  }

  /** The bytes of the service name that follow an empty label. */
  lemma EmptyNameBytes(h: Label)
    requires |h| == 0
    ensures var b := NameBytes(InstanceName(h));
            |b| > 10 && b[0] == 0 && b[1] == 13 && b[2] == 95 && b[9] == 101 && b[10] == 100
  {
    var rest := LabelBytes([Ota, Tcp, Local]);
    assert InstanceName(h)[1..] == [Ota, Tcp, Local];
    assert LabelBytes(InstanceName(h)) == ([0] + h) + rest;
    assert rest == ([13] + Ota) + LabelBytes([Ota, Tcp, Local][1..]);
  }

  lemma EmptyHeader(pkt: seq<Byte>, off: nat, h: Label)
    requires |h| == 0 && At(pkt, off, NameBytes(InstanceName(h)))
    ensures HeaderAt(pkt, off) == Some(Header([], 13 * 256 + 95, off + 11, 101 * 256 + 100))
  {
    EmptyNameBytes(h);
    var b := NameBytes(InstanceName(h));
    AtByte(pkt, off, b, 0);
    AtByte(pkt, off, b, 1);
    AtByte(pkt, off, b, 2);
    AtByte(pkt, off, b, 9);
    AtByte(pkt, off, b, 10);
  }

  lemma OnlyShort(pkt: seq<Byte>, h: Label, ipv4: seq<Byte>, port: Word)
    requires Parsed(pkt) == [RawHost(h, ipv4, port)]
    ensures |h| <= 191 && DOT !in h
  {
    ParsedShort(pkt, 0);
  }

  /** An announcement is read back exactly for labels of 1 to 191 bytes without a dot. */
  lemma AnnouncementReadIff(h: Label, ipv4: seq<Byte>, port: Word, pkt: seq<Byte>)
    requires |ipv4| == 4 && pkt == Announcement(h, ipv4, port)
    ensures Parsed(pkt) == [RawHost(h, ipv4, port)] <==> 1 <= |h| <= 191 && DOT !in h
  {
    if h == [] {
      EmptyLabelLost(h, ipv4, port);
    } else if |h| <= 191 && DOT !in h {
      NoQuestions(h, ipv4, port);
      QuestionsDoNotMatter([], h, ipv4, port);
    } else if Parsed(pkt) == [RawHost(h, ipv4, port)] {
      OnlyShort(pkt, h, ipv4, port);
    }
  }

  lemma CharsInjective(a: Label, b: Label)
    requires Chars(a) == Chars(b)
    ensures a == b
  {
    assert forall i :: 0 <= i < |a| ==> Chars(a)[i] as int == a[i] && Chars(b)[i] as int == b[i];
  }

  /** A label that converts to UTF-8 text without replacement characters is that text. */
  lemma RawOfText(raw: Label, h: Label)
    requires TextOf(raw) == Chars(h) && !HoldsReplacement(Chars(h))
    ensures raw == h
  {
    LossyPlain(Chars(raw));
    CharsInjective(raw, h);
  }

  lemma ShownOne(hosts: seq<RawHost>, h: Label, ipv4: seq<Byte>, port: Word)
    requires AllShown(hosts) == [OtaHost(Chars(h), ipv4, port)] && !HoldsReplacement(Chars(h))
    ensures hosts == [RawHost(h, ipv4, port)]
  {
    assert AllShown(hosts)[0] == Shown(hosts[0]);
    RawOfText(hosts[0].hostname, h);
  }

  /**
   The host name, a string, comes back as it was announced exactly when it has 1 to 191
   bytes and no dot, for every name without replacement characters; one with them comes
   back too when it is that short, and never beyond 573 bytes or with a dot.
   */
  lemma AnnouncedNameIff(h: Label, ipv4: seq<Byte>, port: Word, pkt: seq<Byte>)
    requires |ipv4| == 4 && pkt == Announcement(h, ipv4, port) && IsUtf8(Chars(h))
    ensures var back := AllShown(Parsed(pkt)) == [OtaHost(Chars(h), ipv4, port)];
            && (1 <= |h| <= 191 && DOT !in h ==> back)
            && (back ==> 1 <= |h| <= 573 && DOT !in h)
            && (!HoldsReplacement(Chars(h)) ==> (back <==> 1 <= |h| <= 191 && DOT !in h))
  {
    AnnouncementReadIff(h, ipv4, port, pkt);
    LossyKeeps(Chars(h));
    if 1 <= |h| <= 191 && DOT !in h {
      assert AllShown(Parsed(pkt)) == [Shown(RawHost(h, ipv4, port))];
    } else if h == [] {
      EmptyLabelLost(h, ipv4, port);
    } else if AllShown(Parsed(pkt)) == [OtaHost(Chars(h), ipv4, port)] {
      NameKept(pkt, h, ipv4, port);
    }
  }

  lemma NameKept(pkt: seq<Byte>, h: Label, ipv4: seq<Byte>, port: Word)
    requires AllShown(Parsed(pkt)) == [OtaHost(Chars(h), ipv4, port)]
    ensures |h| <= 573 && DOT !in h && (!HoldsReplacement(Chars(h)) ==> |h| <= 191)
  {
    ParsedShort(pkt, 0);
    assert AllShown(Parsed(pkt))[0].hostname == Chars(h);
    forall i | 0 <= i < |h| ensures h[i] != DOT {
      assert Chars(h)[i] != '.';
    }
    if !HoldsReplacement(Chars(h)) {
      ShownOne(Parsed(pkt), h, ipv4, port);
    }
  }
}
