/** DNS names with compression pointers (`read_name`), section 4.1.4 of RFC 1035. */
module DnsNames {
  import opened Prelude
  import opened Text

  const MAX_JUMPS: nat := 16

  type Label = seq<Byte>

  /** A name and the offset just after it. */
  datatype Name = Name(labels: seq<Label>, end: nat)

  // ----- reading -------------------------------------------------------------------

  function Put(head: Label, r: Option<Name>): Option<Name>
  {
    match r
    case None => None
    case Some(n) => Some(n.(labels := [head] + n.labels))
  }

  /** The labels found elsewhere, ending here. */
  function Pointed(r: Option<Name>, end: nat): Option<Name>
  {
    match r
    case None => None
    case Some(n) => Some(n.(end := end))
  }

  function PointerAt(pkt: seq<Byte>, off: nat): (p: nat)
    requires off + 1 < |pkt| && pkt[off] >= 192
  {
    (pkt[off] as int - 192) * 256 + pkt[off + 1] as int
  }

  /**
   The name at `off` after `jumps` pointers. Pointers may form cycles; the measure is
   the jumps left, then the bytes left.
   */
  function ReadFrom(pkt: seq<Byte>, off: nat, jumps: nat): (r: Option<Name>)
    requires jumps <= MAX_JUMPS
    ensures r.Some? ==> off < r.value.end <= |pkt|
    decreases MAX_JUMPS - jumps, |pkt| - off
  {
    if off >= |pkt| then None
    else
      var len := pkt[off];
      if len == 0 then Some(Name([], off + 1))
      else if len >= 192 then
        if off + 1 >= |pkt| || jumps == MAX_JUMPS then None
        else Pointed(ReadFrom(pkt, PointerAt(pkt, off), jumps + 1), off + 2)
      else if off + 1 + len > |pkt| then None
      else Put(pkt[off + 1..off + 1 + len], ReadFrom(pkt, off + 1 + len, jumps))
  }

  /** What the loop has read so far, followed by the rest. */
  function Joined(labels: seq<Label>, next: Option<nat>, r: Option<Name>): Option<Name>
  {
    match r
    case None => None
    case Some(n) => Some(Name(labels + n.labels, if next.Some? then next.value else n.end))
  }

  lemma JoinedPut(labels: seq<Label>, next: Option<nat>, head: Label, r: Option<Name>)
    ensures Joined(labels, next, Put(head, r)) == Joined(labels + [head], next, r)
  {
    if r.Some? {
      Assoc(labels, [head], r.value.labels);
    }
  }

  lemma JoinedPointed(labels: seq<Label>, next: Option<nat>, end: nat, r: Option<Name>)
    ensures Joined(labels, next, Pointed(r, end)) == Joined(labels, if next.Some? then next else Some(end), r)
  {
  }

  // ----- names as text ---------------------------------------------------------------

  function Chars(l: Label): (s: string)
    ensures |s| == |l|
  {
    seq(|l|, i requires 0 <= i < |l| => l[i] as char)
  }

  /** A label as text. */
  function TextOf(l: Label): (s: string)
  {
    Lossy(Chars(l))
  }

  function Texts(labels: seq<Label>): (parts: seq<string>)
    ensures |parts| == |labels|
  {
    seq(|labels|, i requires 0 <= i < |labels| => TextOf(labels[i]))
  }

  /** A name as text: its labels joined by dots. */
  function NameText(labels: seq<Label>): (s: string)
  {
    Join(Texts(labels), '.')
  }

  function AsText(r: Option<Name>): (t: Option<(string, nat)>)
  {
    match r
    case None => None
    case Some(n) => Some((NameText(n.labels), n.end))
  }

  /** `read_name`: the loop, which ends on every packet. */
  method ReadName(pkt: seq<Byte>, start: nat) returns (r: Option<(string, nat)>)
    ensures r == AsText(ReadFrom(pkt, start, 0))
    ensures r.Some? ==> start < r.value.1 <= |pkt|
  {
    var texts: seq<string> := [];
    ghost var labels: seq<Label> := [];
    var off: nat := start;
    var nextAfter: Option<nat> := None;
    var jumps: nat := 0;
    ghost var all := ReadFrom(pkt, start, 0);
    JoinedNothing(all);
    while true
      invariant jumps <= MAX_JUMPS && texts == Texts(labels)
      invariant all == Joined(labels, nextAfter, ReadFrom(pkt, off, jumps))
      decreases MAX_JUMPS - jumps, |pkt| - off
    {
      if off >= |pkt| {
        return None;
      }
      var len := pkt[off];
      if len == 0 {
        off := off + 1;
        assert labels + [] == labels;
        return Some((Join(texts, '.'), if nextAfter.Some? then nextAfter.value else off));
      }
      if len >= 192 {
        if off + 1 >= |pkt| {
          return None;
        }
        var ptr := PointerAt(pkt, off);
        if jumps == MAX_JUMPS {
          return None;
        }
        JoinedPointed(labels, nextAfter, off + 2, ReadFrom(pkt, ptr, jumps + 1));
        if nextAfter.None? {
          nextAfter := Some(off + 2);
        }
        jumps := jumps + 1;
        off := ptr;
        continue;
      }
      off := off + 1;
      if off + len > |pkt| {
        return None;
      }
      JoinedPut(labels, nextAfter, pkt[off..off + len], ReadFrom(pkt, off + len, jumps));
      labels := labels + [pkt[off..off + len]];
      texts := texts + [TextOf(pkt[off..off + len])];
      off := off + len;
    }
  }

  lemma JoinedNothing(r: Option<Name>)
    ensures Joined([], None, r) == r
  {
    if r.Some? {
      assert [] + r.value.labels == r.value.labels;
    }
  }

  // ----- writing -----------------------------------------------------------------------

  /** A label the reader takes back: its length byte is neither the end nor a pointer. */
  predicate ReadableLabel(l: Label)
  {
    1 <= |l| <= 191
  }

  ghost predicate Readable(labels: seq<Label>)
  {
    forall i :: 0 <= i < |labels| ==> ReadableLabel(labels[i])
  }

  /** The length byte, 0 when the length does not fit. */
  function LengthByte(n: nat): (b: Byte)
  {
    if n < 256 then n else 0
  }

  function LabelBytes(labels: seq<Label>): (b: seq<Byte>)
  {
    if labels == [] then [] else ([LengthByte(|labels[0]|)] + labels[0]) + LabelBytes(labels[1..])
  }

  function NameBytes(labels: seq<Label>): (b: seq<Byte>)
  {
    LabelBytes(labels) + [0]
  }

  /** `put_name`. */
  method PutName(buf: seq<Byte>, labels: seq<Label>) returns (out: seq<Byte>)
    ensures out == buf + NameBytes(labels)
  {
    out := buf;
    var i := 0;
    assert labels[0..] == labels;
    while i < |labels|
      invariant 0 <= i <= |labels|
      invariant out + LabelBytes(labels[i..]) == buf + LabelBytes(labels)
    {
      PutTurn(out, labels, i);
      out := out + ([LengthByte(|labels[i]|)] + labels[i]);
      i := i + 1;
    }
    assert out + [] == out;
    Assoc(buf, LabelBytes(labels), [0]);
    out := out + [0];
  }

  lemma PutTurn(out: seq<Byte>, labels: seq<Label>, i: nat)
    requires i < |labels|
    ensures out + LabelBytes(labels[i..]) ==
            (out + ([LengthByte(|labels[i]|)] + labels[i])) + LabelBytes(labels[i + 1..])
  {
    assert labels[i..][0] == labels[i] && labels[i..][1..] == labels[i + 1..];
    Assoc(out, [LengthByte(|labels[i]|)] + labels[i], LabelBytes(labels[i + 1..]));
  }

  /** `b` stands in the packet at `off`. */
  ghost predicate At(pkt: seq<Byte>, off: nat, b: seq<Byte>)
  {
    off + |b| <= |pkt| && pkt[off..off + |b|] == b
  }

  lemma AtSplit(pkt: seq<Byte>, off: nat, a: seq<Byte>, b: seq<Byte>)
    requires At(pkt, off, a + b)
    ensures At(pkt, off, a) && At(pkt, off + |a|, b)
  {
    assert pkt[off..off + |a|] == (a + b)[..|a|];
    assert pkt[off + |a|..off + |a| + |b|] == (a + b)[|a|..];
  }

  lemma AtByte(pkt: seq<Byte>, off: nat, b: seq<Byte>, i: nat)
    requires At(pkt, off, b) && i < |b|
    ensures pkt[off + i] == b[i]
  {
    assert pkt[off..off + |b|][i] == b[i];
  }

  /** One label is read as itself. */
  lemma ReadLabel(pkt: seq<Byte>, off: nat, l: Label, jumps: nat)
    requires jumps <= MAX_JUMPS && ReadableLabel(l) && At(pkt, off, [LengthByte(|l|)] + l)
    ensures off + 1 + |l| <= |pkt|
    ensures ReadFrom(pkt, off, jumps) == Put(l, ReadFrom(pkt, off + 1 + |l|, jumps))
  {
    AtByte(pkt, off, [LengthByte(|l|)] + l, 0);
    AtSplit(pkt, off, [LengthByte(|l|)], l);
  }

  function PutAll(labels: seq<Label>, r: Option<Name>): Option<Name>
  {
    if labels == [] then r else Put(labels[0], PutAll(labels[1..], r))
  }

  lemma {:induction false} ReadLabels(pkt: seq<Byte>, off: nat, labels: seq<Label>, jumps: nat)
    requires jumps <= MAX_JUMPS && Readable(labels) && At(pkt, off, LabelBytes(labels))
    ensures ReadFrom(pkt, off, jumps) == PutAll(labels, ReadFrom(pkt, off + |LabelBytes(labels)|, jumps))
    decreases |labels|
  {
    if labels != [] {
      var first := [LengthByte(|labels[0]|)] + labels[0];
      assert ReadableLabel(labels[0]);
      AtSplit(pkt, off, first, LabelBytes(labels[1..]));
      ReadLabel(pkt, off, labels[0], jumps);
      ReadLabels(pkt, off + |first|, labels[1..], jumps);
    }
  }

  lemma {:induction false} PutAllSome(labels: seq<Label>, n: Name)
    ensures PutAll(labels, Some(n)) == Some(Name(labels + n.labels, n.end))
  {
    if labels == [] {
      assert labels + n.labels == n.labels;
    } else {
      PutAllSome(labels[1..], n);
      Assoc([labels[0]], labels[1..], n.labels);
      assert [labels[0]] + labels[1..] == labels;
    }
  }

  /** A name written without pointers is read back. */
  lemma ReadPlain(pkt: seq<Byte>, off: nat, labels: seq<Label>, jumps: nat)
    requires jumps <= MAX_JUMPS && Readable(labels) && At(pkt, off, NameBytes(labels))
    ensures ReadFrom(pkt, off, jumps) == Some(Name(labels, off + |NameBytes(labels)|))
  {
    AtSplit(pkt, off, LabelBytes(labels), [0]);
    ReadLabels(pkt, off, labels, jumps);
    var z := off + |LabelBytes(labels)|;
    AtByte(pkt, z, [0], 0);
    PutAllSome(labels, Name([], z + 1));
    assert labels + [] == labels;
  }

  // ----- pointers -------------------------------------------------------------------------

  function PointerBytes(q: nat): (b: seq<Byte>)
    requires q < 16384
  {
    [192 + q / 256, q % 256]
  }

  lemma ReadPointer(pkt: seq<Byte>, off: nat, q: nat, jumps: nat)
    requires q < 16384 && jumps < MAX_JUMPS && At(pkt, off, PointerBytes(q))
    ensures ReadFrom(pkt, off, jumps) == Pointed(ReadFrom(pkt, q, jumps + 1), off + 2)
  {
    AtByte(pkt, off, PointerBytes(q), 0);
    AtByte(pkt, off, PointerBytes(q), 1);
    assert PointerAt(pkt, off) == q;
  }

  lemma PutPointed(labels: seq<Label>, rest: Name, end: nat)
    ensures PutAll(labels, Pointed(Some(rest), end)) == Some(Name(labels + rest.labels, end))
  {
    PutAllSome(labels, Name(rest.labels, end));
  }

  /** Labels followed by a pointer read as the labels followed by the name it leads to. */
  lemma PointerMeansSuffix(pkt: seq<Byte>, off: nat, labels: seq<Label>, q: nat, jumps: nat, rest: Name)
    requires q < 16384 && jumps < MAX_JUMPS && Readable(labels)
    requires At(pkt, off, LabelBytes(labels) + PointerBytes(q)) && ReadFrom(pkt, q, jumps + 1) == Some(rest)
    ensures ReadFrom(pkt, off, jumps) == Some(Name(labels + rest.labels, off + |LabelBytes(labels)| + 2))
  {
    var p := off + |LabelBytes(labels)|;
    AtSplit(pkt, off, LabelBytes(labels), PointerBytes(q));
    ReadLabels(pkt, off, labels, jumps);
    ReadPointer(pkt, p, q, jumps);
    PutPointed(labels, rest, p + 2);
  }

  /** A name compressed with a pointer to an earlier suffix reads the same as the name written out. */
  lemma CompressedReadsAsExpanded(pkt: seq<Byte>, off: nat, q: nat, labels: seq<Label>, suffix: seq<Label>, plain: seq<Byte>, at: nat)
    requires q < 16384 && Readable(labels) && Readable(suffix)
    requires At(pkt, off, LabelBytes(labels) + PointerBytes(q)) && At(pkt, q, NameBytes(suffix))
    requires At(plain, at, NameBytes(labels + suffix))
    ensures ReadFrom(pkt, off, 0).Some? && ReadFrom(plain, at, 0).Some?
    ensures ReadFrom(pkt, off, 0).value.labels == ReadFrom(plain, at, 0).value.labels == labels + suffix
  {
    ReadPlain(pkt, q, suffix, 1);
    PointerMeansSuffix(pkt, off, labels, q, 0, Name(suffix, q + |NameBytes(suffix)|));
    ReadPlain(plain, at, labels + suffix, 0);
  }

  /** A pointer to itself is refused, wherever it is met. */
  lemma {:induction false} SelfPointerRefused(pkt: seq<Byte>, off: nat, jumps: nat)
    requires off < 16384 && jumps <= MAX_JUMPS && At(pkt, off, PointerBytes(off))
    ensures ReadFrom(pkt, off, jumps) == None
    decreases MAX_JUMPS - jumps
  {
    AtByte(pkt, off, PointerBytes(off), 0);
    if jumps < MAX_JUMPS {
      ReadPointer(pkt, off, off, jumps);
      SelfPointerRefused(pkt, off, jumps + 1);
    }
  }

  /** Every label read is between 1 and 191 bytes long. */
  lemma {:induction false} LabelsReadable(pkt: seq<Byte>, off: nat, jumps: nat)
    requires jumps <= MAX_JUMPS && ReadFrom(pkt, off, jumps).Some?
    ensures Readable(ReadFrom(pkt, off, jumps).value.labels)
    decreases MAX_JUMPS - jumps, |pkt| - off
  {
    var len := pkt[off];
    if len >= 192 {
      LabelsReadable(pkt, PointerAt(pkt, off), jumps + 1);
    } else if len > 0 {
      LabelsReadable(pkt, off + 1 + len, jumps);
    }
  }
}
