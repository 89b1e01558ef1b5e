/** The WiFred device in configuration mode (`WifredFake`): its web page and its state. */
module WifredDevice {
  import opened Prelude
  import opened Text
  import opened WifredConfig
  import opened WifredQuery
  import opened ConfigXml

  datatype Device = Device(cfg: Config, restarted: bool, active: Option<nat>)

  // ----- one parameter -----------------------------------------------------------------

  /** The state while a query is applied: the network named so far is kept aside. */
  datatype Work = Work(cfg: Config, active: Option<nat>, ssid: Option<string>, key: Option<string>)

  /** The first entry with this index takes the value, or a new entry is appended. */
  function SetFunction(fs: seq<FunctionEntry>, index: U8, value: U8): (r: seq<FunctionEntry>)
  {
    if fs == [] then [FunctionEntry(index, value)]
    else if fs[0].index == index then [FunctionEntry(index, value)] + fs[1..]
    else [fs[0]] + SetFunction(fs[1..], index, value)
  }

  /** Slots appended until position `idx` exists. */
  function Extended(locos: seq<Loco>, idx: nat): (r: seq<Loco>)
    ensures |r| == if |locos| <= idx then idx + 1 else |locos|
    ensures forall k :: 0 <= k < |r| ==> r[k] == if k < |locos| then locos[k] else UnusedLoco(None)
  {
    if |locos| <= idx then locos + seq(idx + 1 - |locos|, _ => UnusedLoco(None)) else locos
  }

  /** What a loco parameter does to the selected slot. */
  function Edited(loco: Loco, p: Pair): (r: Loco)
  {
    match p.key
    case Address =>
      loco.(address := Or(ParseSigned(p.value, I64_HALF), -1))
    case Mode => loco.(mode := Some(p.value))
    case Direction => loco.(direction := ParseUnsigned(p.value, 0x100))
    case LongAddress => if p.value == "on" then loco.(longAddress := Some(true)) else loco
    case Function(index) =>
      loco.(functions := SetFunction(loco.functions, index, Or(ParseUnsigned(p.value, 0x100), 0)))
    case _ => loco
  }

  /** What a server parameter does to the server block. */
  function EditedServer(s: Server, p: Pair): (r: Server)
  {
    match p.key
    case ServerName => s.(name := p.value)
    case ServerPort => s.(port := Or(ParseUnsigned(p.value, 0x1_0000), 0))
    case Automatic => s.(automatic := true)
    case _ => s
  }

  function Without(ns: seq<Network>, ssid: string): (r: seq<Network>)
    ensures forall i :: 0 <= i < |r| ==> r[i].ssid != ssid
  {
    if ns == [] then []
    else if ns[0].ssid != ssid then [ns[0]] + Without(ns[1..], ssid)
    else Without(ns[1..], ssid)
  }

  /** `upsert_network`. */
  function Upserted(ns: seq<Network>, ssid: string, key: Option<string>): (r: seq<Network>)
  {
    if ns == [] then [Network(ssid, key, true)]
    else if ns[0].ssid == ssid then [Network(ssid, if key.Some? then key else ns[0].key, true)] + ns[1..]
    else [ns[0]] + Upserted(ns[1..], ssid, key)
  }

  function SelectedBy(value: string): (idx: Option<nat>)
  {
    match ParseUnsigned(value, USIZE_LIMIT)
    case None => None
    case Some(n) => if n >= 1 then Some(n - 1) else None
  }


  function EditActive(w: Work, p: Pair): (r: Work)
  {
    if w.active.Some? && w.active.value < |w.cfg.locos| then
      var i := w.active.value;
      w.(cfg := w.cfg.(locos := w.cfg.locos[i := Edited(w.cfg.locos[i], p)]))
    else w
  }

  function ApplyPair(w: Work, p: Pair): (r: Work)
  {
    match p.key
    case ThrottleName => w.(cfg := w.cfg.(throttleName := Some(p.value)))
    case SelectLoco =>
      var idx := SelectedBy(p.value);
      if idx.None? then w
      else w.(cfg := w.cfg.(locos := Extended(w.cfg.locos, idx.value)), active := idx)
    case Address => EditActive(w, p)
    case Mode => EditActive(w, p)
    case Direction => EditActive(w, p)
    case LongAddress => EditActive(w, p)
    case Function(_) => EditActive(w, p)
    case ServerName => EditServer(w, p)
    case ServerPort => EditServer(w, p)
    case Automatic => if p.value == "on" then EditServer(w, p) else w
    case Remove => w.(cfg := w.cfg.(networks := Without(w.cfg.networks, p.value)))
    case WifiSsid => w.(ssid := Some(p.value))
    case WifiKey => w.(key := Some(p.value))
    case Unknown => w
  }

  function EditServer(w: Work, p: Pair): (r: Work)
  {
    w.(cfg := w.cfg.(server := Some(EditedServer(Or(w.cfg.server, Server("", 0, false)), p))))
  }

  function ApplyPairs(w: Work, pairs: seq<Pair>): (r: Work)
    decreases |pairs|
  {
    if pairs == [] then w else ApplyPairs(ApplyPair(w, pairs[0]), pairs[1..])
  }

  function Settle(d: Device, w: Work): (r: Device)
  {
    d.(cfg := if w.ssid.None? then w.cfg
              else w.cfg.(networks := Upserted(w.cfg.networks, w.ssid.value, w.key)),
       active := w.active)
  }

  /** A device after the parameters of one query. */
  function AppliedPairs(d: Device, pairs: seq<Pair>): (r: Device)
  {
    Settle(d, ApplyPairs(Work(d.cfg, d.active, None, None), pairs))
  }

  function Applied(d: Device, query: string): (r: Device)
  {
    AppliedPairs(d, PairsOf(Split(query, '&')))
  }

  // ----- requests ------------------------------------------------------------------------

  const XML_PATH := "/api/getConfigXML"
  const RESTART_PATH := "/restart.html"
  const FLASH_PATH := "/flashred.html"
  const INDEX_PATH := "/index.html"

  datatype Route = ReadXml | Restart | Flash | Index(query: Option<string>) | NotFound

  function RouteOf(path: string): (r: Route)
  {
    if XML_PATH <= path then ReadXml
    else if RESTART_PATH <= path then Restart
    else if FLASH_PATH <= path then Flash
    else if INDEX_PATH <= path then
      Index(match SplitOnce(path, '?') case Some((_, q)) => Some(q) case None => None)
    else NotFound
  }

  /** What a client sees of a request: a failure, or a body. */
  datatype Reply = Failed | Answer(body: Body)

  /** A line of text: a body without elements. */
  const Page := Answer(Whole([]))

  function Shown(doc: Document): (r: Reply)
  {
    Answer(Whole(doc))
  }

  function Handled(d: Device, path: string): (r: (Device, Reply))
  {
    match RouteOf(path)
    case ReadXml => (d, Shown(Printed(d.cfg)))
    case Restart => (d.(restarted := true), Page)
    case Flash => (d, Page)
    case Index(None) => (d, Page)
    case Index(Some(q)) => (Applied(d, q), Page)
    case NotFound => (d, Failed)
  }

  /** The device as an object with its three fields. */
  class WifredFake {
    var cfg: Config
    var restarted: bool
    var active: Option<nat>

    /** Factory state: structure version 1 and four unused slots. */
    constructor ()
      ensures State() == Device(EmptyConfig.(structureVersion := Some("1"), locos := seq(4, _ => UnusedLoco(None))), false, None)
    {
      cfg := EmptyConfig.(structureVersion := Some("1"), locos := seq(4, _ => UnusedLoco(None)));
      restarted := false;
      active := None;
    }

    function State(): (d: Device)
      reads this
    {
      Device(cfg, restarted, active)
    }

    /** `apply_query`: pair by pair, the named network last. */
    method ApplyQuery(query: string)
      modifies this
      ensures State() == Applied(old(State()), query)
    {
      var pendingSsid: Option<string> := None;
      var pendingKey: Option<string> := None;
      var parts := Split(query, '&');
      ghost var start := Work(cfg, active, None, None);
      var i := 0;
      assert parts[0..] == parts;
      while i < |parts|
        invariant 0 <= i <= |parts|
        invariant restarted == old(restarted)
        invariant ApplyPairs(start, PairsOf(parts))
               == ApplyPairs(Work(cfg, active, pendingSsid, pendingKey), PairsOf(parts[i..]))
      {
        PartTurn(Work(cfg, active, pendingSsid, pendingKey), parts, i);
        if parts[i] != "" {
          var w := ApplyPair(Work(cfg, active, pendingSsid, pendingKey), PairOf(parts[i]));
          cfg, active, pendingSsid, pendingKey := w.cfg, w.active, w.ssid, w.key;
        }
        i := i + 1;
      }
      if pendingSsid.Some? {
        cfg := cfg.(networks := Upserted(cfg.networks, pendingSsid.value, pendingKey));
      }
    }

    /** `handle`: anything but GET is refused. */
    method Handle(verb: string, path: string) returns (reply: Reply)
      modifies this
      ensures (State(), reply) == if verb == "GET" then Handled(old(State()), path) else (old(State()), Failed)
    {
      if verb != "GET" {
        return Failed;
      }
      match RouteOf(path) {
        case ReadXml =>
          var doc := SerializeXml(cfg);
          reply := Shown(doc);
        case Restart =>
          restarted := true;
          reply := Page;
        case Flash =>
          reply := Page;
        case Index(q) =>
          if q.Some? {
            ApplyQuery(q.value);
          }
          reply := Page;
        case NotFound =>
          reply := Failed;
      }
    }
  }

  lemma PartTurn(w: Work, parts: seq<string>, i: nat)
    requires i < |parts|
    ensures ApplyPairs(w, PairsOf(parts[i..])) ==
            ApplyPairs(if parts[i] == "" then w else ApplyPair(w, PairOf(parts[i])), PairsOf(parts[i + 1..]))
  {
    var rest := parts[i..];
    assert rest[0] == parts[i] && rest[1..] == parts[i + 1..];
    if parts[i] != "" {
      var p := PairOf(parts[i]);
      PairsCons(w, p, PairsOf(parts[i + 1..]));
    }
  }

  lemma PairsCons(w: Work, p: Pair, rest: seq<Pair>)
    ensures ApplyPairs(w, [p] + rest) == ApplyPairs(ApplyPair(w, p), rest)
  {
    assert ([p] + rest)[0] == p && ([p] + rest)[1..] == rest;
  }

  /** Requests handled one after the other. */
  function HandledAll(d: Device, paths: seq<string>): (r: Device)
    decreases |paths|
  {
    if paths == [] then d else HandledAll(Handled(d, paths[0]).0, paths[1..])
  }

  lemma {:induction false} HandledAppend(d: Device, a: seq<string>, b: seq<string>)
    ensures HandledAll(d, a + b) == HandledAll(HandledAll(d, a), b)
    decreases |a|
  {
    if a == [] {
      assert a + b == b;
    } else {
      assert (a + b)[0] == a[0] && (a + b)[1..] == a[1..] + b;
      HandledAppend(Handled(d, a[0]).0, a[1..], b);
    }
  }
}
