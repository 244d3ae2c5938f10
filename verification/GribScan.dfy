/**
 The GRIB2 section-0 walk of src/services/gfs_grib_validation.py.

 Section 0 of WMO FM 92 GRIB Edition 2 is 16 octets: "GRIB", four octets, and the
 total message length as a big-endian 64-bit number.  The walk follows the lengths and
 reports how many whole messages it passed and whether it landed exactly on the end.
 */
module GribScan {

  type Byte = x: nat | x < 256

  const MAGIC: seq<Byte> := [0x47, 0x52, 0x49, 0x42]
  const HEADER := 16
  const EXPECTED_MESSAGES := 13

  datatype Scan = Scan(count: nat, endsAtEof: bool)

  function BigEndian(octets: seq<Byte>): nat {
    if octets == [] then 0 else 256 * BigEndian(octets[..|octets| - 1]) + octets[|octets| - 1]
  }

  /** The declared length: eight octets, the most significant first. */
  lemma LengthIsBigEndian(data: seq<Byte>, offset: nat)
    requires offset + HEADER <= |data|
    ensures LengthAt(data, offset) ==
            0x1_00_00_00_00_00_00_00 * (data[offset + 8] as int) + 0x1_00_00_00_00_00_00 * (data[offset + 9] as int)
            + 0x1_00_00_00_00_00 * (data[offset + 10] as int) + 0x1_00_00_00_00 * (data[offset + 11] as int)
            + 0x1_00_00_00 * (data[offset + 12] as int) + 0x1_00_00 * (data[offset + 13] as int)
            + 0x1_00 * (data[offset + 14] as int) + (data[offset + 15] as int)
  {
    var o := data[offset + 8..offset + 16];
    BigEndianNext(o, 1);
    BigEndianNext(o, 2);
    BigEndianNext(o, 3);
    BigEndianNext(o, 4);
    BigEndianNext(o, 5);
    BigEndianNext(o, 6);
    BigEndianNext(o, 7);
    BigEndianNext(o, 8);
    assert o[..0] == [] && o[..8] == o;
  }

  lemma BigEndianNext(octets: seq<Byte>, k: nat)
    requires 1 <= k <= |octets|
    ensures BigEndian(octets[..k]) == 256 * BigEndian(octets[..k - 1]) + octets[k - 1]
  {
    assert octets[..k][..k - 1] == octets[..k - 1];
  }

  /** A header starts with the letters of the magic. */
  lemma HeaderShowsMagic(data: seq<Byte>, offset: nat)
    ensures HeaderAt(data, offset) <==>
              && offset + 16 <= |data|
              && data[offset] == 'G' as int && data[offset + 1] == 'R' as int
              && data[offset + 2] == 'I' as int && data[offset + 3] == 'B' as int
              && LengthAt(data, offset) > 0
  {
    if offset + 16 <= |data| {
      var four := data[offset..offset + 4];
      assert four == [four[0], four[1], four[2], four[3]];
    }
  }

  /** A header that can be read at `offset`, as the code checks it. */
  predicate HeaderAt(data: seq<Byte>, offset: nat) {
    offset + HEADER <= |data| && data[offset..offset + 4] == MAGIC && LengthAt(data, offset) > 0
  }

  function LengthAt(data: seq<Byte>, offset: nat): nat
    requires offset + HEADER <= |data|
  {
    BigEndian(data[offset + 8..offset + 16])
  }

  /** Messages passed from `offset` on, and the offset the walk stops at. */
  function Walk(data: seq<Byte>, offset: nat): (nat, nat)
    decreases |data| - offset
  {
    if !HeaderAt(data, offset) then
      (0, offset)
    else if offset + LengthAt(data, offset) > |data| then
      (0, offset + LengthAt(data, offset))
    else
      var (rest, stop) := Walk(data, offset + LengthAt(data, offset));
      (1 + rest, stop)
  }

  function Scanned(data: seq<Byte>): Scan {
    var (count, stop) := Walk(data, 0);
    Scan(count, stop == |data|)
  }

  /** scan_grib. */
  method ScanGrib(data: seq<Byte>) returns (scan: Scan)
    ensures scan == Scanned(data)
  {
    var count, offset := 0, 0;
    while offset < |data|
      invariant var (rest, stop) := Walk(data, offset); Walk(data, 0) == (count + rest, stop)
      decreases |data| - offset
    {
      if |data| - offset < HEADER || data[offset..offset + 4] != MAGIC {
        break;
      }
      var length := BigEndian(data[offset + 8..offset + 16]);
      if length <= 0 {
        break;
      }
      if offset + length > |data| {
        offset := offset + length;
        break;
      }
      count := count + 1;
      offset := offset + length;
    }
    return Scan(count, offset == |data|);
  }

  // ------------------------------------------------------------- exact meaning

  /** Offsets 0 = o(0) < o(1) < ... < o(k) = size, each header declaring the next. */
  ghost predicate Chain(data: seq<Byte>, offsets: seq<nat>) {
    && offsets != []
    && offsets[|offsets| - 1] == |data|
    && (forall i :: 0 <= i < |offsets| - 1 ==>
          HeaderAt(data, offsets[i]) && offsets[i + 1] == offsets[i] + LengthAt(data, offsets[i]))
  }

  lemma {:induction false} ChainWalks(data: seq<Byte>, offsets: seq<nat>)
    requires Chain(data, offsets)
    ensures Walk(data, offsets[0]) == (|offsets| - 1, |data|)
    decreases |offsets|
  {
    if |offsets| > 1 {
      var rest := offsets[1..];
      ChainWalks(data, rest);
      ChainStays(data, rest);
    }
  }

  lemma {:induction false} ChainStays(data: seq<Byte>, offsets: seq<nat>)
    requires Chain(data, offsets)
    ensures offsets[0] <= |data|
    decreases |offsets|
  {
    if |offsets| > 1 {
      ChainStays(data, offsets[1..]);
    }
  }

  lemma {:induction false} WalkLeavesChain(data: seq<Byte>, offset: nat) returns (offsets: seq<nat>)
    requires Walk(data, offset).1 == |data|
    ensures Chain(data, offsets) && offsets[0] == offset && |offsets| == Walk(data, offset).0 + 1
    decreases |data| - offset
  {
    if HeaderAt(data, offset) && offset + LengthAt(data, offset) <= |data| {
      var rest := WalkLeavesChain(data, offset + LengthAt(data, offset));
      offsets := [offset] + rest;
    } else {
      offsets := [offset];
      assert offset == |data|;
    }
  }

  /** The scan reports (k, true) exactly when the file is a chain of k declared lengths. */
  lemma ScanIsExact(data: seq<Byte>, k: nat)
    ensures Scanned(data) == Scan(k, true)
            <==> exists offsets: seq<nat> :: |offsets| == k + 1 && offsets[0] == 0 && Chain(data, offsets)
  {
    if Scanned(data) == Scan(k, true) {
      var offsets := WalkLeavesChain(data, 0);
      assert |offsets| == k + 1 && offsets[0] == 0 && Chain(data, offsets);
    }
    if offsets: seq<nat> :| |offsets| == k + 1 && offsets[0] == 0 && Chain(data, offsets) {
      ChainWalks(data, offsets);
    }
  }

  // ---------------------------------------------------- whole files and their cuts

  predicate WellFormed(message: seq<Byte>) {
    |message| >= HEADER && message[..4] == MAGIC && BigEndian(message[8..16]) == |message|
  }

  function Concat(messages: seq<seq<Byte>>): seq<Byte> {
    if messages == [] then [] else messages[0] + Concat(messages[1..])
  }

  ghost predicate AllWellFormed(messages: seq<seq<Byte>>) {
    forall i :: 0 <= i < |messages| ==> WellFormed(messages[i])
  }

  /** Walking past whole messages leads to whatever follows them. */
  lemma {:induction false} WalkPasses(before: seq<Byte>, messages: seq<seq<Byte>>, after: seq<Byte>)
    requires AllWellFormed(messages)
    ensures
      var data := before + Concat(messages) + after;
      var (rest, stop) := Walk(data, |before| + |Concat(messages)|);
      Walk(data, |before|) == (|messages| + rest, stop)
    decreases |messages|
  {
    var data := before + Concat(messages) + after;
    if messages == [] {
    } else {
      var first := messages[0];
      assert data == (before + first) + Concat(messages[1..]) + after;
      assert data[|before|..|before| + 4] == first[..4];
      assert data[|before| + 8..|before| + 16] == first[8..16];
      WalkPasses(before + first, messages[1..], after);
    }
  }

  lemma WalkFromStart(messages: seq<seq<Byte>>, after: seq<Byte>)
    requires AllWellFormed(messages)
    ensures
      var data := Concat(messages) + after;
      && Walk(data, 0).0 == |messages| + Walk(data, |Concat(messages)|).0
      && Walk(data, 0).1 == Walk(data, |Concat(messages)|).1
  {
    WalkPasses([], messages, after);
    assert [] + Concat(messages) + after == Concat(messages) + after;
  }

  lemma NoHeaderStops(data: seq<Byte>, offset: nat)
    requires !HeaderAt(data, offset)
    ensures Walk(data, offset) == (0, offset)
  {
  }

  /** The header of what follows the whole messages is read from what follows. */
  lemma HeaderOfTail(messages: seq<seq<Byte>>, tail: seq<Byte>)
    ensures
      var data := Concat(messages) + tail;
      && (HeaderAt(data, |Concat(messages)|) <==> HeaderAt(tail, 0))
      && (HeaderAt(tail, 0) ==> LengthAt(data, |Concat(messages)|) == LengthAt(tail, 0))
  {
    var data := Concat(messages) + tail;
    var n := |Concat(messages)|;
    if n + HEADER <= |data| {
      assert data[n..n + 4] == tail[0..4];
      assert data[n + 8..n + 16] == tail[8..16];
    }
  }

  /** A file of k whole messages scans as (k, true). */
  lemma WholeFileScans(messages: seq<seq<Byte>>)
    requires AllWellFormed(messages)
    ensures Scanned(Concat(messages)) == Scan(|messages|, true)
  {
    WalkFromStart(messages, []);
    assert Concat(messages) + [] == Concat(messages);
    NoHeaderStops(Concat(messages), |Concat(messages)|);
  }

  /** Cut strictly inside a message, the file scans as the whole messages before it, unfinished. */
  lemma CutFileScans(messages: seq<seq<Byte>>, last: seq<Byte>, cut: nat)
    requires AllWellFormed(messages) && WellFormed(last) && 0 < cut < |last|
    ensures Scanned(Concat(messages) + last[..cut]) == Scan(|messages|, false)
  {
    var data := Concat(messages) + last[..cut];
    WalkFromStart(messages, last[..cut]);
    HeaderOfTail(messages, last[..cut]);
    if cut >= HEADER {
      CutHeader(last, cut);
      OverrunStops(data, |Concat(messages)|);
    } else {
      NoHeaderStops(data, |Concat(messages)|);
    }
  }

  lemma CutHeader(last: seq<Byte>, cut: nat)
    requires WellFormed(last) && HEADER <= cut < |last|
    ensures HeaderAt(last[..cut], 0) && LengthAt(last[..cut], 0) == |last|
  {
    assert last[..cut][0..4] == last[..4] && last[..cut][0 + 8..0 + 16] == last[8..16];
  }

  lemma OverrunStops(data: seq<Byte>, offset: nat)
    requires HeaderAt(data, offset) && offset + LengthAt(data, offset) > |data|
    ensures Walk(data, offset) == (0, offset + LengthAt(data, offset))
  {
  }

  /** Trailing octets that are no header also read as unfinished, although nothing was cut. */
  lemma TrailingJunkScansAsCut(messages: seq<seq<Byte>>, junk: seq<Byte>)
    requires AllWellFormed(messages) && junk != [] && !HeaderAt(junk, 0)
    ensures Scanned(Concat(messages) + junk) == Scan(|messages|, false)
  {
    WalkFromStart(messages, junk);
    HeaderOfTail(messages, junk);
    NoHeaderStops(Concat(messages) + junk, |Concat(messages)|);
  }

  // ----------------------------------------------------------------- validation

  datatype Verdict = Accepted | Transient | Permanent

  function CountVerdict(data: seq<Byte>): Verdict {
    var scan := Scanned(data);
    if scan.endsAtEof && scan.count == EXPECTED_MESSAGES then Accepted
    else if !scan.endsAtEof then Transient
    else Permanent
  }

  /** validate_gfs_grib: the magic first, then the message count. */
  function FileVerdict(data: seq<Byte>): Verdict {
    if !(MAGIC <= data) then Permanent else CountVerdict(data)
  }

  class GribFile {
    const data: seq<Byte>
    var present: bool

    constructor (data: seq<Byte>)
      ensures this.data == data && present
    {
      this.data := data;
      present := true;
    }

    /** The rejected file is removed, whatever the reason. */
    method Validate() returns (verdict: Verdict)
      requires present
      modifies this
      ensures verdict == FileVerdict(data)
      ensures present <==> verdict == Accepted
    {
      if |data| < 4 || data[..4] != MAGIC {
        present := false;
        return Permanent;
      }
      var scan := ScanGrib(data);
      if scan.endsAtEof && scan.count == EXPECTED_MESSAGES {
        return Accepted;
      }
      present := false;
      return if scan.endsAtEof then Permanent else Transient;
    }
  }

  /**
   Every prefix of a whole file: a prefix ending on a message boundary is complete and
   judged by its count, and any other prefix is transient, except that one too short to
   show the magic is taken for a wrong payload.
   */
  lemma PrefixVerdict(messages: seq<seq<Byte>>, j: nat, cut: nat)
    requires AllWellFormed(messages) && j < |messages| && cut < |messages[j]|
    ensures
      var data := Concat(messages[..j]) + messages[j][..cut];
      && (FileVerdict(data) == Transient <==> cut > 0 && |data| >= 4)
      && (FileVerdict(data) == Accepted <==> cut == 0 && j == 13)
  {
    var whole := messages[..j];
    var data := Concat(whole) + messages[j][..cut];
    if cut == 0 {
      WholeFileScans(whole);
      assert data == Concat(whole);
    } else {
      CutFileScans(whole, messages[j], cut);
    }
    if |data| >= 4 {
      if j > 0 {
        assert data[..4] == whole[0][..4] == MAGIC;
      } else {
        assert data[..4] == messages[0][..4];
      }
    }
  }

  /** The whole file is accepted exactly when it has the expected number of messages. */
  lemma WholeFileVerdict(messages: seq<seq<Byte>>)
    requires AllWellFormed(messages)
    ensures FileVerdict(Concat(messages)) == if |messages| == 13 then Accepted else Permanent
  {
    WholeFileScans(messages);
    if messages != [] {
      assert Concat(messages)[..4] == messages[0][..4];
    }
  }
}
