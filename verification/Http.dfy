/**
 The bounded HTTP client's response side (`request_once`): when a response is
 complete, the read loop, and what is made of the bytes. A buffer is a string
 whose chars are the bytes.
 */
module Http {
  import opened Prelude
  import opened Text
  import opened Chunked

  const READ_SIZE: nat := 4096

  // ----- the header block ---------------------------------------------------------

  predicate BlankAt(s: string, i: nat)
  {
    CrlfAt(s, i) && CrlfAt(s, i + 2)
  }

  function BlankLine(s: string, i: nat): (r: Option<nat>)
    ensures r.Some? ==> i <= r.value && BlankAt(s, r.value)
    decreases |s| - i
  {
    if i >= |s| then None else if BlankAt(s, i) then Some(i) else BlankLine(s, i + 1)
  }

  /** `locate_body`: the offset of the body, just after the first blank line. */
  function LocateBody(buf: string): (r: Option<nat>)
    ensures r.Some? ==> 4 <= r.value <= |buf|
  {
    match BlankLine(buf, 0)
    case None => None
    case Some(i) => Some(i + 4)
  }

  lemma {:induction false} BlankLineFirst(s: string, i: nat)
    ensures var r := BlankLine(s, i);
            forall j :: i <= j < (if r.Some? then r.value else |s|) ==> !BlankAt(s, j)
    decreases |s| - i
  {
    if i < |s| && !BlankAt(s, i) {
      BlankLineFirst(s, i + 1);
    }
  }

  /** The body starts at `at` exactly when the first blank line is just before it. */
  lemma LocateBodyIs(s: string, at: nat)
    requires 4 <= at && BlankAt(s, at - 4) && forall j :: 0 <= j < at - 4 ==> !BlankAt(s, j)
    ensures LocateBody(s) == Some(at)
  {
    BlankLineFirst(s, 0);
  }

  method FindBody(buf: string) returns (r: Option<nat>)
    ensures r == LocateBody(buf)
    ensures r.None? <==> forall j :: 0 <= j <= |buf| ==> !BlankAt(buf, j)
  {
    BlankLineFirst(buf, 0);
    var i := 3;
    while i < |buf|
      invariant 3 <= i
      invariant forall j :: 0 <= j < i - 3 ==> !BlankAt(buf, j)
    {
      var window := buf[i - 3..i + 1];
      assert window == [buf[i - 3], buf[i - 2], buf[i - 1], buf[i]];
      if window == "\r\n\r\n" {
        LocateBodyIs(buf, i + 1);
        return Some(i + 1);
      }
      i := i + 1;
    }
    return None;
  }

  /** The lines of a header block. */
  function Lines(s: string): (lines: seq<string>)
    ensures |lines| > 0
    decreases |s|
  {
    match LineEnd(s, 0)
    case None => [s]
    case Some(e) => [s[..e]] + Lines(s[e + 2..])
  }

  function Lower(c: char): char
  {
    if 'A' <= c <= 'Z' then (c as int + 32) as char else c
  }

  predicate EqIgnoreCase(a: string, b: string)
  {
    |a| == |b| && forall i :: 0 <= i < |a| ==> Lower(a[i]) == Lower(b[i])
  }

  /** Value of the first header line with this name. */
  function HeaderValue(lines: seq<string>, name: string): (v: Option<string>)
  {
    if lines == [] then None
    else
      match SplitOnce(lines[0], ':')
      case Some((key, value)) =>
        if EqIgnoreCase(key, name) then Some(value) else HeaderValue(lines[1..], name)
      case None => HeaderValue(lines[1..], name)
  }

  /** `parse_content_length`. */
  function ContentLength(headers: string): (n: Option<nat>)
  {
    if !IsUtf8(headers) then None
    else
      match HeaderValue(Lines(headers), "content-length")
      case None => None
      case Some(v) => ParseUnsigned(Trim(v), USIZE_LIMIT)
  }

  /** A list of codings, one of them `chunked` in any spelling. */
  predicate NamesChunked(value: string)
  {
    var tokens := Split(value, ',');
    exists i :: 0 <= i < |tokens| && EqIgnoreCase(Trim(tokens[i]), "chunked")
  }

  /** `is_chunked`. */
  predicate IsChunked(headers: string)
  {
    IsUtf8(headers) &&
    match HeaderValue(Lines(headers), "transfer-encoding")
    case None => false
    case Some(v) => NamesChunked(v)
  }

  // ----- completeness ---------------------------------------------------------------

  /** What a look at the buffer shows: more to come, a whole response, or sizes that end the process. */
  datatype Seen = More | Whole | Fatal

  /** `http_message_complete`, once the body is located. */
  function SeenFrom(headers: string, body: string): (s: Seen)
  {
    match ContentLength(headers)
    case Some(len) => if |body| >= len then Whole else More
    case None =>
      if !IsChunked(headers) then More
      else
        match Decode(body)
        case Ok(_) => Whole
        case Err(e) => if e.Overflow? then Fatal else More
  }

  /** `http_message_complete`. */
  function Look(buf: string): (s: Seen)
  {
    match LocateBody(buf)
    case None => More
    case Some(at) => SeenFrom(buf[..at], buf[at..])
  }

  predicate Complete(buf: string)
  {
    Look(buf).Whole?
  }

  /** Appending bytes moves neither the headers nor the start of the body. */
  lemma LocateStable(buf: string, x: string)
    requires LocateBody(buf).Some?
    ensures LocateBody(buf + x) == LocateBody(buf)
  {
    BlankLineFirst(buf, 0);
    var at := LocateBody(buf).value;
    assert forall j :: 0 <= j <= at - 4 ==> BlankAt(buf + x, j) == BlankAt(buf, j);
    LocateBodyIs(buf + x, at);
  }

  lemma SplitStable(buf: string, x: string, at: nat)
    requires at <= |buf|
    ensures (buf + x)[..at] == buf[..at] && (buf + x)[at..] == buf[at..] + x
  {
  }

  lemma SeenFromStable(headers: string, body: string, x: string)
    requires !SeenFrom(headers, body).More?
    ensures SeenFrom(headers, body + x) == SeenFrom(headers, body)
  {
    if ContentLength(headers).None? {
      DecodeStable(body, x);
    }
  }

  /** What is whole, or fatal, stays so when bytes are appended. */
  lemma LookStable(buf: string, x: string)
    requires !Look(buf).More?
    ensures Look(buf + x) == Look(buf)
  {
    LocateStable(buf, x);
    var at := LocateBody(buf).value;
    SplitStable(buf, x, at);
    SeenFromStable(buf[..at], buf[at..], x);
  }

  lemma LookOfPrefix(m: string, k: nat)
    requires k <= |m|
    ensures Look(m[..k]).More? || Look(m[..k]) == Look(m)
  {
    var p, x := m[..k], m[k..];
    assert m == p + x;
    LookExtended(p, x);
  }

  lemma LookExtended(p: string, x: string)
    ensures Look(p).More? || Look(p) == Look(p + x)
  {
    if !Look(p).More? {
      LookStable(p, x);
    }
  }

  /** A response whose Content-Length is exactly the length of its body. */
  ghost predicate ExactLength(m: string)
  {
    match LocateBody(m)
    case None => false
    case Some(at) => ContentLength(m[..at]) == Some(|m| - at)
  }

  /** A response without Content-Length that carries a complete chunked body. */
  ghost predicate WholeChunked(m: string)
  {
    match LocateBody(m)
    case None => false
    case Some(at) => ContentLength(m[..at]).None? && IsChunked(m[..at]) && Decode(m[at..]).Ok?
  }

  /** No proper prefix of an exact message is complete. */
  lemma NoPrefixComplete(m: string, k: nat)
    requires ExactLength(m) && k < |m|
    ensures Look(m[..k]).More? && Look(m).Whole?
  {
    var p, x := m[..k], m[k..];
    assert m == p + x;
    if LocateBody(p).Some? {
      LocateStable(p, x);
      SplitStable(p, x, LocateBody(p).value);
    }
  }

  // ----- the status line ----------------------------------------------------------------

  /** Length of the word at the head of `s`. */
  function WordLength(s: string): (n: nat)
    ensures n <= |s|
  {
    if s == "" || IsSpace(s[0]) then 0 else 1 + WordLength(s[1..])
  }

  /** `split_whitespace().nth(1)`. */
  function SecondWord(line: string): (w: Option<string>)
  {
    var first := TrimStart(line);
    var rest := TrimStart(first[WordLength(first)..]);
    if rest == "" then None else Some(rest[..WordLength(rest)])
  }

  /** `parse_status` of the text before the first CR. */
  function StatusOf(line: string): (n: Option<nat>)
  {
    if !IsUtf8(line) then None
    else
      match SecondWord(line)
      case None => None
      case Some(w) => ParseUnsigned(w, 0x1_0000)
  }

  function StatusLine(buf: string): (line: string)
  {
    buf[..IndexOf(buf, '\r')]
  }

  // ----- the finished response --------------------------------------------------------------

  datatype HttpError =
    | Cancelled
    | TooLarge
    | DeadlineElapsed
    | ReadDeadline
    | ReadFailed(event: Event)
    | NoSeparator
    | BadChunks(reason: DecodeError)   // with `Overflow`, the end of the process
    | BodyTooLarge
    | BadStatusLine
    | UnexpectedStatus(status: nat)

  type Response = Result<string, HttpError>

  function BodyOf(headers: string, raw: string): (r: Response)
  {
    if IsChunked(headers) then
      match Decode(raw)
      case Ok(body) => Ok(body)
      case Err(e) => Err(BadChunks(e))
    else Ok(raw)
  }

  function Judge(body: Response, line: string, maxBody: nat): (r: Response)
    ensures r.Ok? ==> r == body && |r.value| <= maxBody
  {
    if body.Err? then body
    else if |body.value| > maxBody then Err(BodyTooLarge)
    else
      match StatusOf(line)
      case None => Err(BadStatusLine)
      case Some(n) => if 200 <= n < 300 then body else Err(UnexpectedStatus(n))
  }

  /** What the code after the read loop returns for the bytes read. */
  function Finish(maxBody: nat, buf: string): (r: Response)
    ensures r.Ok? ==> |r.value| <= maxBody
  {
    match LocateBody(buf)
    case None => Err(NoSeparator)
    case Some(at) => Judge(BodyOf(buf[..at], buf[at..]), StatusLine(buf), maxBody)
  }

  lemma StatusLineStable(buf: string, x: string)
    requires LocateBody(buf).Some?
    ensures StatusLine(buf + x) == StatusLine(buf)
  {
    var at := LocateBody(buf).value;
    assert buf[at - 4] == '\r';
    var i := IndexOf(buf, '\r');
    assert forall j :: 0 <= j <= i ==> (buf + x)[j] == buf[j];
    assert IndexOf(buf + x, '\r') == i;
  }

  lemma BodyStable(headers: string, raw: string, x: string)
    requires IsChunked(headers) && Decode(raw).Ok?
    ensures BodyOf(headers, raw + x) == BodyOf(headers, raw)
  {
    DecodeStable(raw, x);
  }

  /** Reading past a complete chunked body changes nothing. */
  lemma FinishStable(maxBody: nat, buf: string, x: string)
    requires WholeChunked(buf)
    ensures Finish(maxBody, buf + x) == Finish(maxBody, buf)
  {
    LocateStable(buf, x);
    var at := LocateBody(buf).value;
    SplitStable(buf, x, at);
    StatusLineStable(buf, x);
    BodyStable(buf[..at], buf[at..], x);
  }

  // ----- the read loop ------------------------------------------------------------------------

  /** What a read of the socket brings. Other failures of the socket are `Other`. */
  datatype Event = Data(bytes: string) | Eof | Reset | TimedOut | WouldBlock | Other

  /** One turn of the loop as the outside world decides it: the cancel flag, the
      deadline before the read, the read, and the deadline after it. */
  datatype Turn = Turn(cancelled: bool, expired: bool, event: Event, late: bool)

  ghost predicate ValidTurn(t: Turn)
  {
    t.event.Data? ==> 1 <= |t.event.bytes| <= READ_SIZE
  }

  datatype Client = Client(maxBody: Size, hasCancel: bool, resetIsSuccess: bool)

  /** `Waiting` is a loop that has used up the given turns. */
  datatype Progress = Waiting(buf: string) | Broke(buf: string) | Gave(response: Response)

  type Detector = string -> Seen

  function TurnOf(done: Detector, c: Client, buf: string, t: Turn): (p: Progress)
  {
    if t.cancelled then Gave(Err(Cancelled))
    else if |buf| > c.maxBody then Gave(Err(TooLarge))
    else if done(buf).Fatal? then Gave(Err(BadChunks(Overflow)))
    else if done(buf).Whole? then Broke(buf)
    else if t.expired then Gave(Err(DeadlineElapsed))
    else
      match t.event
      case Eof => if done(buf).Whole? then Broke(buf) else if c.resetIsSuccess then Gave(Ok("")) else Broke(buf)
      case Data(bytes) => Waiting(buf + bytes)
      case TimedOut => if c.hasCancel && !t.late then Waiting(buf) else Gave(Err(ReadDeadline))
      case WouldBlock => if c.hasCancel && !t.late then Waiting(buf) else Gave(Err(ReadDeadline))
      case Reset =>
        if done(buf).Whole? then Broke(buf)
        else if c.resetIsSuccess then Gave(Ok("")) else Gave(Err(ReadFailed(t.event)))
      case Other => Gave(Err(ReadFailed(t.event)))
  }

  function Reading(done: Detector, c: Client, buf: string, turns: seq<Turn>): (p: Progress)
    decreases |turns|
  {
    if turns == [] then Waiting(buf)
    else
      match TurnOf(done, c, buf, turns[0])
      case Waiting(more) => Reading(done, c, more, turns[1..])
      case Broke(all) => Broke(all)
      case Gave(r) => Gave(r)
  }

  /** The loop as written. The buffer never exceeds the bound by more than one read. */
  method ReadResponse(done: Detector, c: Client, turns: seq<Turn>) returns (p: Progress, buf: string)
    requires forall i :: 0 <= i < |turns| ==> ValidTurn(turns[i])
    ensures p == Reading(done, c, "", turns)
    ensures |buf| <= c.maxBody + READ_SIZE
    ensures !p.Gave? ==> buf == p.buf
    ensures p.Broke? ==> |buf| <= c.maxBody
  {
    buf := "";
    var i := 0;
    assert turns[0..] == turns;
    while i < |turns|
      invariant 0 <= i <= |turns|
      invariant |buf| <= c.maxBody + READ_SIZE
      invariant Reading(done, c, "", turns) == Reading(done, c, buf, turns[i..])
    {
      var t := turns[i];
      assert ValidTurn(t);
      assert turns[i..][0] == t && turns[i..][1..] == turns[i + 1..];
      i := i + 1;
      if t.cancelled {
        return Gave(Err(Cancelled)), buf;
      }
      if |buf| > c.maxBody {
        return Gave(Err(TooLarge)), buf;
      }
      var seen := done(buf);
      if seen.Fatal? {
        return Gave(Err(BadChunks(Overflow))), buf;
      }
      if seen.Whole? {
        return Broke(buf), buf;
      }
      if t.expired {
        return Gave(Err(DeadlineElapsed)), buf;
      }
      match t.event {
        case Eof =>
          if c.resetIsSuccess {
            return Gave(Ok("")), buf;
          }
          return Broke(buf), buf;
        case Data(bytes) =>
          buf := buf + bytes;
        case TimedOut =>
          if !c.hasCancel || t.late {
            return Gave(Err(ReadDeadline)), buf;
          }
        case WouldBlock =>
          if !c.hasCancel || t.late {
            return Gave(Err(ReadDeadline)), buf;
          }
        case Reset =>
          if c.resetIsSuccess {
            return Gave(Ok("")), buf;
          }
          return Gave(Err(ReadFailed(t.event))), buf;
        case Other =>
          return Gave(Err(ReadFailed(t.event))), buf;
      }
    }
    return Waiting(buf), buf;
  }

  // ----- segmentation ---------------------------------------------------------------------------

  /**
   The turns bring exactly `m`, cut anywhere, with any number of idle polls between
   the pieces, in time and uncancelled; then one more turn begins, and whatever that
   turn and later ones bring, a reset included, is left open.
   */
  ghost predicate Delivers(c: Client, turns: seq<Turn>, m: string)
    decreases |turns|
  {
    && turns != [] && !turns[0].cancelled
    && (m == "" ||
        (&& !turns[0].expired
         && match turns[0].event
            case Data(bytes) => bytes != "" && bytes <= m && Delivers(c, turns[1..], m[|bytes|..])
            case TimedOut => c.hasCancel && !turns[0].late && Delivers(c, turns[1..], m)
            case WouldBlock => c.hasCancel && !turns[0].late && Delivers(c, turns[1..], m)
            case _ => false))
  }

  /** Whatever detector is used, the loop stops with a prefix of `m` that it calls done. */
  lemma {:induction false} StopsWithin(done: Detector, c: Client, turns: seq<Turn>, m: string, have: string, todo: string)
    requires m == have + todo && |m| <= c.maxBody && done(m).Whole? && forall k :: 0 <= k <= |m| ==> !done(m[..k]).Fatal?
    requires Delivers(c, turns, todo)
    ensures var p := Reading(done, c, have, turns); p.Broke? && done(p.buf).Whole? && p.buf <= m
    decreases |turns|
  {
    assert m[..|have|] == have;
    if !done(have).Whole? && todo != "" {
      if turns[0].event.Data? {
        var bytes := turns[0].event.bytes;
        assert m == (have + bytes) + todo[|bytes|..];
        StopsWithin(done, c, turns[1..], m, have + bytes, todo[|bytes|..]);
      } else {
        StopsWithin(done, c, turns[1..], m, have, todo);
      }
    } else {
      assert todo == "" ==> have == m;
    }
  }

  /** The whole response side: the loop, then what is made of its buffer. */
  function Respond(c: Client, turns: seq<Turn>): (r: Option<Response>)
  {
    match Reading(Look, c, "", turns)
    case Waiting(_) => None
    case Broke(buf) => Some(Finish(c.maxBody, buf))
    case Gave(r) => Some(r)
  }

  /** A complete prefix of a well-framed response gives the same result as all of it. */
  lemma PrefixFinishes(maxBody: nat, m: string, p: string)
    requires ExactLength(m) || WholeChunked(m)
    requires p <= m && Complete(p)
    ensures Finish(maxBody, p) == Finish(maxBody, m)
  {
    var x := m[|p|..];
    assert m[..|p|] == p && m == p + x;
    if ExactLength(m) {
      if x != "" {
        NoPrefixComplete(m, |p|);
      }
      assert p == m;
    } else {
      ChunkedPrefix(p, x);
      FinishStable(maxBody, p, x);
    }
  }

  lemma ChunkedPrefix(p: string, x: string)
    requires Complete(p) && WholeChunked(p + x)
    ensures WholeChunked(p)
  {
    LocateStable(p, x);
    SplitStable(p, x, LocateBody(p).value);
  }

  lemma WellFramedComplete(m: string)
    requires ExactLength(m) || WholeChunked(m)
    ensures Complete(m)
  {
  }

  /**
   Segmentation independence: every way of cutting a well-framed response into
   reads gives the same result, the one made of the whole response.
   */
  lemma AnySegmentation(c: Client, turns: seq<Turn>, m: string)
    requires ExactLength(m) || WholeChunked(m)
    requires |m| <= c.maxBody && Delivers(c, turns, m)
    ensures Respond(c, turns) == Some(Finish(c.maxBody, m))
  {
    WellFramedComplete(m);
    forall k | 0 <= k <= |m| ensures !Look(m[..k]).Fatal? {
      LookOfPrefix(m, k);
    }
    assert "" + m == m;
    StopsWithin(Look, c, turns, m, "", m);
    PrefixFinishes(c.maxBody, m, Reading(Look, c, "", turns).buf);
  }

  // ----- responses by construction ------------------------------------------------------------------

  /** A status line or header field as a server sends it. */
  predicate ValidLine(line: string)
  {
    line != "" && '\r' !in line
  }

  ghost predicate ValidLines(lines: seq<string>)
  {
    forall i :: 0 <= i < |lines| ==> ValidLine(lines[i])
  }

  /** The lines, each ended by CRLF, and the blank line. */
  function Block(lines: seq<string>): (s: string)
    ensures |s| >= 2 && (lines == [] ==> s == CRLF)
  {
    if lines == [] then CRLF else lines[0] + CRLF + Block(lines[1..])
  }

  lemma BlockHead(lines: seq<string>, body: string)
    requires lines != []
    ensures Block(lines) + body == lines[0] + CRLF + (Block(lines[1..]) + body)
  {
  }

  lemma {:induction false} NoEarlierBlank(lines: seq<string>, body: string, j: nat)
    requires ValidLines(lines) && j + 4 < |Block(lines)|
    ensures !BlankAt(Block(lines) + body, j)
  {
    BlockHead(lines, body);
    var line, s := lines[0], Block(lines) + body;
    var rest := Block(lines[1..]) + body;
    assert ValidLine(line);
    assert forall k :: 0 <= k < |line| ==> s[k] == line[k];
    assert s[|line| + 1] == '\n';
    assert s[|line| + 2..] == rest;
    if j == |line| {
      assert ValidLine(lines[1]);
      assert s[j + 2] == rest[0] == lines[1][0];
    } else if j >= |line| + 2 {
      NoEarlierBlank(lines[1..], body, j - |line| - 2);
      assert BlankAt(s, j) == BlankAt(rest, j - |line| - 2);
    }
  }

  lemma {:induction false} BlankAtEnd(lines: seq<string>, body: string)
    requires lines != []
    ensures |Block(lines)| >= 4 && BlankAt(Block(lines) + body, |Block(lines)| - 4)
  {
    BlockHead(lines, body);
    var rest := Block(lines[1..]) + body;
    if |lines| > 1 {
      BlankAtEnd(lines[1..], body);
      assert (Block(lines) + body)[|lines[0]| + 2..] == rest;
    }
  }

  lemma BodyAfterBlock(lines: seq<string>, body: string)
    requires lines != [] && ValidLines(lines)
    ensures LocateBody(Block(lines) + body) == Some(|Block(lines)|)
  {
    BlankAtEnd(lines, body);
    forall j | 0 <= j < |Block(lines)| - 4 ensures !BlankAt(Block(lines) + body, j) {
      NoEarlierBlank(lines, body, j);
    }
    LocateBodyIs(Block(lines) + body, |Block(lines)|);
  }

  lemma LinesHead(line: string, rest: string)
    requires '\r' !in line
    ensures Lines(line + CRLF + rest) == [line] + Lines(rest)
  {
    var s := line + CRLF + rest;
    LineEndAfter(line, rest);
    assert s[..|line|] == line && s[|line| + 2..] == rest;
  }

  lemma {:induction false} LinesOfBlock(lines: seq<string>)
    requires ValidLines(lines)
    ensures Lines(Block(lines)) == lines + ["", ""]
  {
    if lines == [] {
      assert CRLF == "" + CRLF + "";
      LinesHead("", "");
    } else {
      assert ValidLine(lines[0]);
      LinesOfBlock(lines[1..]);
      LinesHead(lines[0], Block(lines[1..]));
    }
  }

  lemma {:induction false} BlankLinesHoldNothing(lines: seq<string>, name: string)
    ensures HeaderValue(lines + ["", ""], name) == HeaderValue(lines, name)
  {
    var all := lines + ["", ""];
    if lines == [] {
      assert all[0] == "" && all[1..] == [""] && [""][1..] == [];
      assert HeaderValue([""], name) == None;
    } else {
      assert all[0] == lines[0] && all[1..] == lines[1..] + ["", ""];
      BlankLinesHoldNothing(lines[1..], name);
    }
  }

  lemma FieldOfBlock(lines: seq<string>, name: string)
    requires ValidLines(lines)
    ensures HeaderValue(Lines(Block(lines)), name) == HeaderValue(lines, name)
  {
    LinesOfBlock(lines);
    BlankLinesHoldNothing(lines, name);
  }

  lemma StatusOfBlock(lines: seq<string>, body: string)
    requires lines != [] && ValidLines(lines)
    ensures StatusLine(Block(lines) + body) == lines[0]
  {
    BlockHead(lines, body);
    var line, s := lines[0], Block(lines) + body;
    assert ValidLine(line);
    assert s == line + ['\r'] + (['\n'] + (Block(lines[1..]) + body));
    IndexOfPrefix(line, '\r', ['\n'] + (Block(lines[1..]) + body));
    assert s[..|line|] == line;
  }

  /** A successful status line and header fields, in UTF-8. */
  ghost predicate ValidHead(lines: seq<string>)
  {
    && lines != [] && ValidLines(lines) && IsUtf8(Block(lines))
    && var status := StatusOf(lines[0]); status.Some? && 200 <= status.value < 300
  }

  /** The fields announce `n` bytes and no chunked coding. */
  ghost predicate AnnouncesLength(lines: seq<string>, n: nat)
  {
    && HeaderValue(lines, "transfer-encoding").None?
    && HeaderValue(lines, "content-length").Some?
    && Trim(HeaderValue(lines, "content-length").value) == Decimal(n)
  }

  /** The fields announce chunked coding and no length. */
  ghost predicate AnnouncesChunks(lines: seq<string>)
  {
    && HeaderValue(lines, "content-length").None?
    && HeaderValue(lines, "transfer-encoding").Some?
    && NamesChunked(HeaderValue(lines, "transfer-encoding").value)
  }

  lemma LengthOfBlock(lines: seq<string>, n: nat)
    requires ValidHead(lines) && AnnouncesLength(lines, n) && n < USIZE_LIMIT
    ensures ContentLength(Block(lines)) == Some(n) && !IsChunked(Block(lines))
  {
    FieldOfBlock(lines, "content-length");
    FieldOfBlock(lines, "transfer-encoding");
    ParseUnsignedRoundTrip(n, USIZE_LIMIT);
  }

  lemma CutBlock(lines: seq<string>, body: string)
    ensures (Block(lines) + body)[..|Block(lines)|] == Block(lines)
    ensures (Block(lines) + body)[|Block(lines)|..] == body
  {
  }

  /** The framing of a response is that of its header block and body. */
  lemma BlockFraming(lines: seq<string>, body: string)
    requires lines != [] && ValidLines(lines)
    ensures var m, h := Block(lines) + body, Block(lines);
            && Look(m) == SeenFrom(h, body)
            && (ExactLength(m) <==> ContentLength(h) == Some(|body|))
            && (WholeChunked(m) <==> ContentLength(h).None? && IsChunked(h) && Decode(body).Ok?)
  {
    BodyAfterBlock(lines, body);
    CutBlock(lines, body);
  }

  lemma BlockFinish(maxBody: nat, lines: seq<string>, body: string)
    requires lines != [] && ValidLines(lines)
    ensures Finish(maxBody, Block(lines) + body) == Judge(BodyOf(Block(lines), body), lines[0], maxBody)
  {
    BodyAfterBlock(lines, body);
    CutBlock(lines, body);
    StatusOfBlock(lines, body);
  }

  /** A server's response with a Content-Length is received as its body, however it is cut. */
  lemma LengthResponse(c: Client, turns: seq<Turn>, lines: seq<string>, body: string)
    requires ValidHead(lines) && AnnouncesLength(lines, |body|) && |body| < USIZE_LIMIT
    requires |Block(lines) + body| <= c.maxBody && Delivers(c, turns, Block(lines) + body)
    ensures Respond(c, turns) == Some(Ok(body))
  {
    LengthOfBlock(lines, |body|);
    BlockFraming(lines, body);
    BlockFinish(c.maxBody, lines, body);
    AnySegmentation(c, turns, Block(lines) + body);
  }

  // ----- bytes after the announced length --------------------------------------------------------------

  /** One way of receiving all of `m`. */
  ghost predicate Cut(c: Client, turns: seq<Turn>, m: string)
  {
    (forall i :: 0 <= i < |turns| ==> ValidTurn(turns[i])) && Delivers(c, turns, m)
  }

  /** How the response is cut into reads does not show in the result. */
  ghost predicate SameForAllCuts(c: Client, m: string)
  {
    forall t, u :: Cut(c, t, m) && Cut(c, u, m) ==> Respond(c, t) == Respond(c, u)
  }

  /**
   Bytes after the announced length are not cut off: they are returned when they arrive
   in the read that completes the response and ignored when they arrive later. So the cut
   does not matter exactly when nothing follows the announced body.
   */
  lemma TrailingBytes(c: Client, lines: seq<string>, body: string, extra: string)
    requires ValidHead(lines) && AnnouncesLength(lines, |body|) && |body| < USIZE_LIMIT
    requires |Block(lines) + body + extra| <= c.maxBody
    ensures SameForAllCuts(c, Block(lines) + body + extra) <==> extra == ""
  {
    var exact := Block(lines) + body;
    if extra == "" {
      assert exact + extra == exact;
      forall t, u | Cut(c, t, exact) && Cut(c, u, exact) ensures Respond(c, t) == Respond(c, u) {
        LengthResponse(c, t, lines, body);
        LengthResponse(c, u, lines, body);
      }
    } else {
      var apart, together := Apart(exact + extra), Together(exact, extra);
      CutApart(c, exact + extra);
      CutTogether(c, exact, extra);
      ReadApart(c, lines, body, extra);
      ReadTogether(c, lines, body, extra);
      assert |body + extra[..1]| == |body| + 1;
    }
  }

  const Quiet := Turn(false, false, Reset, false)

  function DataTurn(bytes: string): Turn
  {
    Turn(false, false, Data(bytes), false)
  }

  /** One byte in each read. */
  function ByteTurns(m: string): (turns: seq<Turn>)
  {
    if m == "" then [] else [DataTurn(m[..1])] + ByteTurns(m[1..])
  }

  function Apart(m: string): (turns: seq<Turn>)
  {
    ByteTurns(m) + [Quiet]
  }

  /** The last byte of `exact` arrives with the first byte of `extra`. */
  function Together(exact: string, extra: string): (turns: seq<Turn>)
    requires exact != "" && extra != ""
  {
    ByteTurns(exact[..|exact| - 1]) + ([DataTurn(exact[|exact| - 1..] + extra[..1])] + Apart(extra[1..]))
  }

  lemma {:induction false} CutBytes(c: Client, m: string, rest: seq<Turn>, more: string)
    requires Cut(c, rest, more)
    ensures Cut(c, ByteTurns(m) + rest, m + more)
    decreases |m|
  {
    var turns := ByteTurns(m) + rest;
    if m == "" {
      assert turns == rest && m + more == more;
    } else {
      CutBytes(c, m[1..], rest, more);
      assert turns == [DataTurn(m[..1])] + (ByteTurns(m[1..]) + rest);
      CutOne(c, m[..1], ByteTurns(m[1..]) + rest, m[1..] + more);
      assert m[..1] + (m[1..] + more) == m + more;
    }
  }

  lemma CutOne(c: Client, bytes: string, rest: seq<Turn>, more: string)
    requires 1 <= |bytes| <= READ_SIZE && Cut(c, rest, more)
    ensures Cut(c, [DataTurn(bytes)] + rest, bytes + more)
  {
    var turns, m := [DataTurn(bytes)] + rest, bytes + more;
    assert turns[0] == DataTurn(bytes) && turns[1..] == rest;
    assert m[..|bytes|] == bytes && m[|bytes|..] == more;
    forall i | 0 <= i < |turns| ensures ValidTurn(turns[i]) {
      assert i > 0 ==> turns[i] == rest[i - 1];
    }
  }

  lemma CutApart(c: Client, m: string)
    ensures Cut(c, Apart(m), m)
  {
    assert Cut(c, [Quiet], "");
    CutBytes(c, m, [Quiet], "");
    assert m + "" == m;
  }

  lemma CutTogether(c: Client, exact: string, extra: string)
    requires exact != "" && extra != ""
    ensures Cut(c, Together(exact, extra), exact + extra)
  {
    var init, last := exact[..|exact| - 1], exact[|exact| - 1..];
    CutApart(c, extra[1..]);
    CutOne(c, last + extra[..1], Apart(extra[1..]), extra[1..]);
    CutBytes(c, init, [DataTurn(last + extra[..1])] + Apart(extra[1..]), (last + extra[..1]) + extra[1..]);
    assert init + ((last + extra[..1]) + extra[1..]) == exact + extra;
  }

  /** Bytes that arrive before the detector is satisfied are only collected. */
  lemma {:induction false} ReadBytes(done: Detector, c: Client, have: string, todo: string, rest: seq<Turn>)
    requires |have + todo| <= c.maxBody && forall k :: 0 <= k < |todo| ==> done(have + todo[..k]).More?
    ensures Reading(done, c, have, ByteTurns(todo) + rest) == Reading(done, c, have + todo, rest)
    decreases |todo|
  {
    var turns := ByteTurns(todo) + rest;
    if todo == "" {
      assert turns == rest && have + todo == have;
    } else {
      var next := have + todo[..1];
      assert have + todo[..0] == have;
      assert turns[0] == DataTurn(todo[..1]) && turns[1..] == ByteTurns(todo[1..]) + rest;
      forall k | 0 <= k < |todo[1..]| ensures done(next + todo[1..][..k]).More? {
        assert next + todo[1..][..k] == have + todo[..k + 1];
      }
      ReadBytes(done, c, next, todo[1..], rest);
      assert next + todo[1..] == have + todo;
    }
  }

  lemma IncompleteBefore(m: string)
    requires ExactLength(m)
    ensures forall k :: 0 <= k < |m| ==> Look(m[..k]).More?
  {
    forall k | 0 <= k < |m| ensures Look(m[..k]).More? {
      NoPrefixComplete(m, k);
    }
  }

  /** One byte at a time, the loop stops with the last byte of the announced body. */
  lemma ReadApart(c: Client, lines: seq<string>, body: string, extra: string)
    requires ValidHead(lines) && AnnouncesLength(lines, |body|) && |body| < USIZE_LIMIT
    requires extra != "" && |Block(lines) + body + extra| <= c.maxBody
    ensures Respond(c, Apart(Block(lines) + body + extra)) == Some(Ok(body))
  {
    var exact := Block(lines) + body;
    LengthOfBlock(lines, |body|);
    BlockFraming(lines, body);
    BlockFinish(c.maxBody, lines, body);
    IncompleteBefore(exact);
    BytesSplit(exact, extra);
    Assoc(ByteTurns(exact), ByteTurns(extra), [Quiet]);
    StopsAfter(Look, c, exact, Apart(extra));
  }

  lemma {:induction false} BytesSplit(a: string, b: string)
    ensures ByteTurns(a + b) == ByteTurns(a) + ByteTurns(b)
    decreases |a|
  {
    if a == "" {
      assert a + b == b;
    } else {
      assert (a + b)[..1] == a[..1] && (a + b)[1..] == a[1..] + b;
      BytesSplit(a[1..], b);
      Assoc([DataTurn(a[..1])], ByteTurns(a[1..]), ByteTurns(b));
    }
  }

  lemma StopsAfter(done: Detector, c: Client, m: string, rest: seq<Turn>)
    requires |m| <= c.maxBody && done(m).Whole? && forall k :: 0 <= k < |m| ==> done(m[..k]).More?
    requires rest != [] && !rest[0].cancelled
    ensures Reading(done, c, "", ByteTurns(m) + rest) == Broke(m)
  {
    forall k | 0 <= k < |m| ensures done("" + m[..k]).More? {
      assert "" + m[..k] == m[..k];
    }
    assert "" + m == m;
    ReadBytes(done, c, "", m, rest);
  }

  /** When one byte more arrives with the last one, it is part of the result. */
  lemma ReadTogether(c: Client, lines: seq<string>, body: string, extra: string)
    requires ValidHead(lines) && AnnouncesLength(lines, |body|) && |body| < USIZE_LIMIT
    requires extra != "" && |Block(lines) + body + extra| <= c.maxBody
    ensures Block(lines) + body != "" && Respond(c, Together(Block(lines) + body, extra)) == Some(Ok(body + extra[..1]))
  {
    var exact := Block(lines) + body;
    LengthOfBlock(lines, |body|);
    BlockFraming(lines, body);
    BlockFraming(lines, body + extra[..1]);
    BlockFinish(c.maxBody, lines, body + extra[..1]);
    Assoc(Block(lines), body, extra[..1]);
    IncompleteBefore(exact);
    StopsLate(Look, c, exact, extra);
  }

  lemma StopsLate(done: Detector, c: Client, exact: string, extra: string)
    requires exact != "" && extra != "" && |exact + extra| <= c.maxBody
    requires done(exact + extra[..1]).Whole? && forall k :: 0 <= k < |exact| ==> done(exact[..k]).More?
    ensures Reading(done, c, "", Together(exact, extra)) == Broke(exact + extra[..1])
  {
    var init, last := exact[..|exact| - 1], exact[|exact| - 1..];
    var rest := [DataTurn(last + extra[..1])] + Apart(extra[1..]);
    forall k | 0 <= k < |init| ensures done("" + init[..k]).More? {
      assert "" + init[..k] == exact[..k];
    }
    assert "" + init == init;
    ReadBytes(done, c, "", init, rest);
    assert rest[1..] == Apart(extra[1..]);
    assert init + (last + extra[..1]) == exact + extra[..1];
    NextTurnUncancelled(extra[1..]);
  }

  lemma NextTurnUncancelled(m: string)
    ensures Apart(m) != [] && !Apart(m)[0].cancelled
  {
  }

  // ----- connections closed early -------------------------------------------------------------------------

  /** The turns bring exactly `m`, cut anywhere, and then the end of the stream, in time and uncancelled. */
  ghost predicate DeliversThenEof(c: Client, turns: seq<Turn>, m: string)
    decreases |turns|
  {
    && turns != [] && !turns[0].cancelled && !turns[0].expired
    && match turns[0].event
       case Data(bytes) => bytes != "" && bytes <= m && DeliversThenEof(c, turns[1..], m[|bytes|..])
       case TimedOut => c.hasCancel && !turns[0].late && DeliversThenEof(c, turns[1..], m)
       case WouldBlock => c.hasCancel && !turns[0].late && DeliversThenEof(c, turns[1..], m)
       case Eof => m == ""
       case _ => false
  }

  lemma {:induction false} EofAfterAll(c: Client, turns: seq<Turn>, m: string)
    requires DeliversThenEof(c, turns, m)
    ensures Delivers(c, turns, m)
    decreases |turns|
  {
    if m != "" {
      if turns[0].event.Data? {
        EofAfterAll(c, turns[1..], m[|turns[0].event.bytes|..]);
      } else {
        EofAfterAll(c, turns[1..], m);
      }
    }
  }

  /** Whatever detector is used, a stream that ends before it is satisfied is taken as it is. */
  lemma {:induction false} ClosedEarly(done: Detector, c: Client, turns: seq<Turn>, m: string, have: string, todo: string)
    requires m == have + todo && |m| <= c.maxBody && forall k :: 0 <= k <= |m| ==> done(m[..k]).More?
    requires DeliversThenEof(c, turns, todo)
    ensures Reading(done, c, have, turns) == if c.resetIsSuccess then Gave(Ok("")) else Broke(m)
    decreases |turns|
  {
    assert m[..|have|] == have;
    if turns[0].event.Data? {
      var bytes := turns[0].event.bytes;
      assert m == (have + bytes) + todo[|bytes|..];
      ClosedEarly(done, c, turns[1..], m, have + bytes, todo[|bytes|..]);
    } else if turns[0].event.Eof? {
      assert have == m;
    } else {
      ClosedEarly(done, c, turns[1..], m, have, todo);
    }
  }

  /**
   A connection closed before the response is complete: the bytes are judged as if they
   were all of it, or the exchange counts as done when a reset counts as success.
   */
  lemma ClosedIncomplete(c: Client, turns: seq<Turn>, m: string)
    requires Look(m).More? && |m| <= c.maxBody && DeliversThenEof(c, turns, m)
    ensures Respond(c, turns) == Some(if c.resetIsSuccess then Ok("") else Finish(c.maxBody, m))
  {
    forall k | 0 <= k <= |m| ensures Look(m[..k]).More? {
      LookOfPrefix(m, k);
    }
    assert "" + m == m;
    ClosedEarly(Look, c, turns, m, "", m);
  }

  /**
   A short body is not an error, however it is cut: what arrived of it is returned as a
   success, or nothing when a reset counts as success. The result has the announced
   length exactly when all of it arrived.
   */
  lemma ShortBodyAccepted(c: Client, turns: seq<Turn>, lines: seq<string>, body: string, n: nat)
    requires ValidHead(lines) && AnnouncesLength(lines, n) && |body| <= n < USIZE_LIMIT
    requires |Block(lines) + body| <= c.maxBody && DeliversThenEof(c, turns, Block(lines) + body)
    ensures var r := Respond(c, turns);
            && r == Some(Ok(if |body| < n && c.resetIsSuccess then "" else body))
            && (|r.value.value| == n <==> |body| == n)
  {
    var m := Block(lines) + body;
    LengthOfBlock(lines, n);
    if |body| == n {
      EofAfterAll(c, turns, m);
      LengthResponse(c, turns, lines, body);
    } else {
      BlockFraming(lines, body);
      BlockFinish(c.maxBody, lines, body);
      ClosedIncomplete(c, turns, m);
    }
  }

  /** Closed before the blank line: refused, unless a reset counts as success. */
  lemma ClosedInHeaders(c: Client, turns: seq<Turn>, m: string)
    requires LocateBody(m).None? && |m| <= c.maxBody && DeliversThenEof(c, turns, m)
    ensures Respond(c, turns) == Some(if c.resetIsSuccess then Ok("") else Err(NoSeparator))
  {
    ClosedIncomplete(c, turns, m);
  }

  /** Whatever detector is used, a fatal sight ends the loop, however it is cut. */
  lemma {:induction false} EndsFatally(done: Detector, c: Client, turns: seq<Turn>, m: string, have: string, todo: string)
    requires m == have + todo && |m| <= c.maxBody && done(m).Fatal? && forall k :: 0 <= k <= |m| ==> !done(m[..k]).Whole?
    requires Delivers(c, turns, todo)
    ensures Reading(done, c, have, turns) == Gave(Err(BadChunks(Overflow)))
    decreases |turns|
  {
    assert m[..|have|] == have;
    if !done(have).Fatal? && todo != "" {
      if turns[0].event.Data? {
        var bytes := turns[0].event.bytes;
        assert m == (have + bytes) + todo[|bytes|..];
        EndsFatally(done, c, turns[1..], m, have + bytes, todo[|bytes|..]);
      } else {
        EndsFatally(done, c, turns[1..], m, have, todo);
      }
    } else {
      assert todo == "" ==> have == m;
    }
  }

  /** Chunks seen to end beyond a machine word end the process, however the response is cut. */
  lemma OverflowEnds(c: Client, turns: seq<Turn>, m: string)
    requires Look(m).Fatal? && |m| <= c.maxBody && Delivers(c, turns, m)
    ensures Respond(c, turns) == Some(Err(BadChunks(Overflow)))
  {
    forall k | 0 <= k <= |m| ensures !Look(m[..k]).Whole? {
      LookOfPrefix(m, k);
    }
    assert "" + m == m;
    EndsFatally(Look, c, turns, m, "", m);
  }

  /**
   A chunked response closed at any point: its data when the last chunk was there, and
   otherwise the decoder's complaint, unless a reset counts as success.
   */
  lemma ClosedInChunks(c: Client, turns: seq<Turn>, lines: seq<string>, body: string)
    requires ValidHead(lines) && AnnouncesChunks(lines)
    requires |Block(lines) + body| <= c.maxBody && DeliversThenEof(c, turns, Block(lines) + body)
    ensures Respond(c, turns) == Some(match Decode(body)
                                      case Ok(data) => Ok(data)
                                      case Err(e) => if c.resetIsSuccess && !e.Overflow? then Ok("") else Err(BadChunks(e)))
  {
    var m := Block(lines) + body;
    ChunkedBlock(lines);
    BlockFraming(lines, body);
    BlockFinish(c.maxBody, lines, body);
    if Decode(body).Ok? {
      DecodeNotLonger(body);
      EofAfterAll(c, turns, m);
      AnySegmentation(c, turns, m);
    } else if Decode(body).error.Overflow? {
      EofAfterAll(c, turns, m);
      OverflowEnds(c, turns, m);
    } else {
      ClosedIncomplete(c, turns, m);
    }
  }

  lemma ChunkedBlock(lines: seq<string>)
    requires ValidHead(lines) && AnnouncesChunks(lines)
    ensures ContentLength(Block(lines)).None? && IsChunked(Block(lines))
  {
    FieldOfBlock(lines, "content-length");
    FieldOfBlock(lines, "transfer-encoding");
  }

  /**
   The process ends exactly when whole chunks lead to a size line whose data would end
   beyond a machine word, for every body, every cut and either treatment of a reset.
   */
  lemma AbortsIff(c: Client, turns: seq<Turn>, lines: seq<string>, body: string)
    requires ValidHead(lines) && AnnouncesChunks(lines)
    requires |Block(lines) + body| <= c.maxBody && DeliversThenEof(c, turns, Block(lines) + body)
    ensures Respond(c, turns) == Some(Err(BadChunks(Overflow))) <==>
            exists p: nat :: Reached(LineSize, body, 0, p) && EndsBeyond(LineSize, body, p)
  {
    ClosedInChunks(c, turns, lines, body);
    OverflowIff(LineSize, body, 0);
  }

  /**
   After any whole chunks, a chunk whose end exceeds a machine word ends the process,
   however the response is cut and whatever follows its size line.
   */
  lemma EndBeyondWord(c: Client, turns: seq<Turn>, lines: seq<string>, chunks: seq<Chunk>, size: string, ext: string, n: nat, tail: string)
    requires ValidHead(lines) && AnnouncesChunks(lines)
    requires (forall i :: 0 <= i < |chunks| ==> ValidChunk(chunks[i])) && SizeLine(size, ext, n) && n > 0
    requires var m := Block(lines) + (EncodeChunks(chunks) + (size + ext + CRLF + tail));
             |m| <= c.maxBody && Delivers(c, turns, m)
    requires EndOf(chunks, size, ext, n) >= USIZE_LIMIT
    ensures Respond(c, turns) == Some(Err(BadChunks(Overflow)))
  {
    var body := EncodeChunks(chunks) + (size + ext + CRLF + tail);
    OverflowAfterChunks(chunks, size, ext, n, tail);
    ChunkedBlock(lines);
    BlockFraming(lines, body);
    OverflowEnds(c, turns, Block(lines) + body);
  }

  /** Closed inside a chunk, the response is refused as truncated, or the process ends, by the chunk's end alone. */
  lemma ClosedInsideChunk(c: Client, turns: seq<Turn>, lines: seq<string>, chunks: seq<Chunk>, size: string, ext: string, n: nat, tail: string)
    requires ValidHead(lines) && AnnouncesChunks(lines)
    requires (forall i :: 0 <= i < |chunks| ==> ValidChunk(chunks[i])) && SizeLine(size, ext, n) && |tail| < n + 2 && n > 0
    requires var m := Block(lines) + (EncodeChunks(chunks) + (size + ext + CRLF + tail));
             |m| <= c.maxBody && DeliversThenEof(c, turns, m)
    ensures Respond(c, turns) == Some(if EndOf(chunks, size, ext, n) >= USIZE_LIMIT then Err(BadChunks(Overflow))
                                      else if c.resetIsSuccess then Ok("") else Err(BadChunks(TruncatedData)))
  {
    OverflowAfterChunks(chunks, size, ext, n, tail);
    ClosedInChunks(c, turns, lines, EncodeChunks(chunks) + (size + ext + CRLF + tail));
  }

  /** The largest size that fits a machine word, as the first one, ends the process for every cut. */
  lemma LargestSizeAborts(c: Client, turns: seq<Turn>, lines: seq<string>, tail: string)
    requires ValidHead(lines) && AnnouncesChunks(lines)
    requires var m := Block(lines) + ("ffffffffffffffff" + "" + CRLF + tail);
             |m| <= c.maxBody && Delivers(c, turns, m)
    ensures Respond(c, turns) == Some(Err(BadChunks(Overflow)))
  {
    var body := "ffffffffffffffff" + "" + CRLF + tail;
    LargestSizeOverflows(tail);
    ChunkedBlock(lines);
    BlockFraming(lines, body);
    OverflowEnds(c, turns, Block(lines) + body);
  }

  /** A chunked response is received as its data, however it is cut, whatever its chunks and whatever follows the last one. */
  lemma ChunkedResponse(c: Client, turns: seq<Turn>, lines: seq<string>, chunks: seq<Chunk>, zero: string, ext: string, tail: string)
    requires ValidHead(lines) && AnnouncesChunks(lines)
    requires (forall i :: 0 <= i < |chunks| ==> ValidChunk(chunks[i])) && SizeLine(zero, ext, 0)
    requires var m := Block(lines) + (EncodeChunks(chunks) + (zero + ext + CRLF + tail));
             |m| <= c.maxBody && Delivers(c, turns, m)
    ensures Respond(c, turns) == Some(Ok(Chunked.Data(chunks)))
  {
    var body := EncodeChunks(chunks) + (zero + ext + CRLF + tail);
    DecodeEncoded(chunks, zero, ext, tail);
    DecodeNotLonger(body);
    ChunkedBlock(lines);
    BlockFraming(lines, body);
    BlockFinish(c.maxBody, lines, body);
    AnySegmentation(c, turns, Block(lines) + body);
  }

  // ----- a response that ends the process ---------------------------------------------------------------

  predicate IsWord(s: string)
  {
    s != "" && forall i :: 0 <= i < |s| ==> !IsSpace(s[i])
  }

  lemma {:induction false} WordLengthIs(w: string, more: string)
    requires (forall i :: 0 <= i < |w| ==> !IsSpace(w[i])) && (more == "" || IsSpace(more[0]))
    ensures WordLength(w + more) == |w|
  {
    if w == "" {
      assert w + more == more;
    } else {
      assert (w + more)[1..] == w[1..] + more;
      WordLengthIs(w[1..], more);
    }
  }

  lemma SecondWordIs(a: string, b: string)
    requires IsWord(a) && IsWord(b)
    ensures SecondWord(a + (" " + b)) == Some(b)
  {
    var line, rest := a + (" " + b), " " + b;
    assert TrimStart(line) == line;
    WordLengthIs(a, rest);
    assert line[|a|..] == rest && rest[1..] == b && TrimStart(b) == b;
    WordLengthIs(b, "");
    assert b + "" == b && b[..|b|] == b;
  }

  ghost predicate Ascii(s: string)
  {
    forall i :: 0 <= i < |s| ==> s[i] as int < 0x80
  }

  lemma StatusIs(version: string, code: string, line: string)
    requires line == version + (" " + code) && IsWord(version) && IsWord(code)
    requires Ascii(line)
    ensures StatusOf(line) == ParseUnsigned(code, 0x1_0000)
  {
    AsciiIsUtf8(line);
    SecondWordIs(version, code);
  }

  lemma TwoHundred(code: string)
    requires code == "200"
    ensures Token(code) && ParseUnsigned(code, 0x1_0000) == Some(200)
  {
    assert Decimal(2) == "2" && Decimal(20) == "20" && Decimal(200) == code;
    ParseUnsignedRoundTrip(200, 0x1_0000);
  }

  lemma FieldIs(name: string, value: string, line: string, other: string)
    requires line == name + [':'] + value && ':' !in name
    ensures HeaderValue([line], other) == if EqIgnoreCase(name, other) then Some(value) else None
  {
    SplitOnceAt(name, ':', value);
    assert [line][1..] == [];
  }

  lemma ChunkedNamed(value: string)
    requires value == "chunked"
    ensures Token(value) && NamesChunked(value)
  {
    assert IndexOf(value, ',') == |value|;
    TrimNothing(value);
    assert Split(value, ',')[0] == value;
  }

  lemma TwoLines(status: string, field: string, block: string)
    requires block == Block([status, field]) && Ascii(status) && Ascii(field)
    ensures block == status + CRLF + (field + CRLF + CRLF) && IsUtf8(block)
  {
    assert [status, field][1..] == [field] && [field][1..] == [];
    assert Block([field]) == field + CRLF + CRLF;
    AsciiIsUtf8(block);
  }

  const STATUS_OK := "HTTP/1.1 200"
  const CHUNKED_FIELD := "transfer-encoding:chunked"

  /** Visible ASCII, and no colon. */
  ghost predicate Token(s: string)
  {
    s != "" && forall i :: 0 <= i < |s| ==> '!' <= s[i] <= '~' && s[i] != ':'
  }

  lemma HeadLines(version: string, code: string, status: string, name: string, value: string, field: string)
    requires Token(version) && Token(code) && status == version + (" " + code)
    requires Token(name) && Token(value) && field == name + [':'] + value
    ensures ValidLine(status) && ValidLine(field) && ':' !in status && Ascii(status) && Ascii(field)
  {
  }

  /** A head of a status line and one field that announces chunked coding. */
  lemma HeadOf(version: string, code: string, n: nat, status: string, name: string, value: string, field: string)
    requires Token(version) && Token(code) && status == version + (" " + code)
    requires Token(name) && Token(value) && field == name + [':'] + value
    requires ParseUnsigned(code, 0x1_0000) == Some(n) && 200 <= n < 300
    requires EqIgnoreCase(name, "transfer-encoding") && NamesChunked(value)
    ensures ValidHead([status, field]) && AnnouncesChunks([status, field])
  {
    HeadLines(version, code, status, name, value, field);
    TwoLines(status, field, Block([status, field]));
    StatusIs(version, code, status);
    FieldIs(name, value, field, "transfer-encoding");
    FieldIs(name, value, field, "content-length");
    FieldAfterStatus(status, field, "transfer-encoding");
    FieldAfterStatus(status, field, "content-length");
  }

  lemma VersionToken(version: string)
    requires version == "HTTP/1.1"
    ensures Token(version)
  {
  }

  lemma FieldName(name: string)
    requires name == "transfer-encoding"
    ensures Token(name) && EqIgnoreCase(name, "transfer-encoding")
  {
  }

  lemma ChunkedHead(version: string, code: string, status: string, name: string, value: string, field: string)
    requires version == "HTTP/1.1" && code == "200" && status == version + (" " + code)
    requires name == "transfer-encoding" && value == "chunked" && field == name + [':'] + value
    ensures ValidHead([status, field]) && AnnouncesChunks([status, field])
  {
    TwoHundred(code);
    ChunkedNamed(value);
    FieldName(name);
    VersionToken(version);
    HeadOf(version, code, 200, status, name, value, field);
  }

  lemma FieldAfterStatus(status: string, field: string, name: string)
    requires ':' !in status
    ensures HeaderValue([status, field], name) == HeaderValue([field], name)
  {
    assert [status, field][1..] == [field];
  }

  /** One such response: a single read, and the process ends. */
  lemma AbortingResponse(c: Client, m: string)
    requires m == Block([STATUS_OK, CHUNKED_FIELD]) + ("ffffffffffffffff" + "" + CRLF + "") && |m| <= c.maxBody
    ensures Respond(c, [DataTurn(m), Quiet]) == Some(Err(BadChunks(Overflow)))
  {
    ChunkedHead("HTTP/1.1", "200", STATUS_OK, "transfer-encoding", "chunked", CHUNKED_FIELD);
    OneRead(c, m);
    LargestSizeAborts(c, [DataTurn(m), Quiet], [STATUS_OK, CHUNKED_FIELD], "");
  }

  lemma OneRead(c: Client, m: string)
    requires m != ""
    ensures Delivers(c, [DataTurn(m), Quiet], m)
  {
    assert [DataTurn(m), Quiet][1..] == [Quiet] && m[|m|..] == "";
  }
}
