/** Program tables: the PAT and PMT of src/dvr/ts_writer.cpp, and a parser for sections 2.4.4.3 and
    2.4.4.8 of ISO/IEC 13818-1. */
module TsTables {
  import opened Bytes
  import opened TsPacket
  import Crc32

  const PID_PAT: Pid := 0x0000
  const PID_PMT: Pid := 0x1000
  const PID_VIDEO: Pid := 0x0100
  const STREAM_TYPE_HEVC := 0x24

  function PatSection(): (s: seq<Byte>)
    ensures |s| == 12
  {
    [0x00, 0xB0, 0x0D, 0x00, 0x01, 0xC1, 0x00, 0x00, 0x00, 0x01, 0xE0 + PID_PMT / 0x100, PID_PMT % 0x100]
  }

  function PmtSection(): (s: seq<Byte>)
    ensures |s| == 17
  {
    [0x02, 0xB0, 0x12, 0x00, 0x01, 0xC1, 0x00, 0x00, 0xE0 + PID_VIDEO / 0x100, PID_VIDEO % 0x100, 0xF0, 0x00,
     STREAM_TYPE_HEVC, 0xE0 + PID_VIDEO / 0x100, PID_VIDEO % 0x100, 0xF0, 0x00]
  }

  /** The bytes after the packet header: a zero pointer field, the section, its CRC and stuffing. */
  function SectionBody(section: seq<Byte>): (b: seq<Byte>)
    requires |section| <= 179
    ensures |b| == SIZE - 4
  {
    [0] + (section + Crc32.Tail(Crc32.Crc(section)) + Fill(179 - |section|))
  }

  /** What `emit_section` appends. */
  function SectionPacket(pid: Pid, counter: Counter, section: seq<Byte>): (b: seq<Byte>)
    requires |section| <= 179
    ensures |b| == SIZE
  {
    Head(true, pid, counter, false) + SectionBody(section)
  }

  // --- the parser -------------------------------------------------------------------------

  /** The section a payload starts with, without its CRC: None unless its length fits, its CRC checks out and
      nothing but stuffing follows. */
  function SectionOf(payload: seq<Byte>): Option<seq<Byte>> {
    if payload == [] || 4 + payload[0] as int > |payload| then None
    else
      var s := payload[1 + payload[0] as int..];
      var end := 3 + s[1] as int % 16 * 0x100 + s[2] as int;
      if end < 12 || end > |s| || Crc32.Crc(s[..end]) != 0 || !Stuffing(s[end..]) then None else Some(s[..end - 4])
  }

  /** A table in one section that is in force: section 2.4.4.3. */
  predicate InForce(s: seq<Byte>) {
    |s| >= 8 && s[1] as int / 16 == 0xB && s[5] as int / 0x40 == 3 && s[5] as int % 2 == 1 && s[6] == 0 && s[7] == 0
  }

  /** The program the player is after. */
  const PROGRAM := 1

  function PidAt(s: seq<Byte>, at: nat): int
    requires at + 2 <= |s|
  {
    s[at] as int % 0x20 * 0x100 + s[at + 1] as int
  }

  /** The PMT PID of the player's program in a PAT's program loop from `at`. */
  function FirstProgram(s: seq<Byte>, at: nat): Option<int>
    decreases |s| - at
  {
    if at + 4 > |s| then None
    else if s[at] as int * 0x100 + s[at + 1] as int == PROGRAM && s[at + 2] as int / 0x20 == 7 then
      Some(PidAt(s, at + 2))
    else FirstProgram(s, at + 4)
  }

  /** The PID of the first HEVC stream in a PMT's stream loop from `at`: table 2-34 gives 0x24 for HEVC. */
  function FirstHevc(s: seq<Byte>, at: nat): Option<int>
    decreases |s| - at
  {
    if at + 5 > |s| then None
    else if s[at] == 0x24 && s[at + 1] as int / 0x20 == 7 && s[at + 3] as int / 16 == 0xF then
      Some(PidAt(s, at + 1))
    else FirstHevc(s, at + 5 + s[at + 3] as int % 16 * 0x100 + s[at + 4] as int)
  }

  function ReadPat(payload: seq<Byte>): Option<int> {
    match SectionOf(payload)
    case None => None
    case Some(s) => if s[0] == 0x00 && InForce(s) then FirstProgram(s, 8) else None
  }

  function ReadPmt(payload: seq<Byte>): Option<int> {
    match SectionOf(payload)
    case None => None
    case Some(s) =>
      if s[0] != 0x02 || |s| < 12 || !InForce(s) || s[3] as int * 0x100 + s[4] as int != PROGRAM then None
      else
        var pid := FirstHevc(s, 12 + s[10] as int % 16 * 0x100 + s[11] as int);
        // the player takes its clock from the video stream
        if pid == Some(PidAt(s, 8)) && s[8] as int / 0x20 == 7 && s[10] as int / 16 == 0xF then pid else None
  }

  // --- the parser reads what the writer wrote ---------------------------------------------

  lemma SectionPacketParses(pid: Pid, counter: Counter, section: seq<Byte>)
    requires |section| <= 179
    ensures Parse(SectionPacket(pid, counter, section))
         == Some(Packet(true, pid, counter, false, None, SectionBody(section)))
  {
    hide Parse, Head, SectionBody;
    ParseHead(true, pid, counter, false, SectionBody(section));
  }

  /** A section that states its own length passes the CRC check and comes back, whatever it holds. */
  lemma SectionReadBack(section: seq<Byte>)
    requires 8 <= |section| <= 179
    requires section[1] as int % 16 * 0x100 + section[2] as int == |section| + 1
    ensures SectionOf(SectionBody(section)) == Some(section)
  {
    hide Crc32.Crc, Crc32.Tail, Fill;
    var tail := Crc32.Tail(Crc32.Crc(section));
    var s := section + tail + Fill(179 - |section|);
    var payload := SectionBody(section);
    assert payload[1..] == s;
    assert s[1] == section[1] && s[2] == section[2];
    var end := |section| + 4;
    assert s[..end] == section + tail;
    assert s[..end - 4] == section;
    assert s[end..] == Fill(179 - |section|);
    FillIsStuffing(179 - |section|);
    Crc32.Residue(section);
  }

  lemma PatReadBack()
    ensures ReadPat(SectionBody(PatSection())) == Some(PID_PMT)
  {
    hide SectionBody, SectionOf;
    SectionReadBack(PatSection());
  }

  lemma PmtReadBack()
    ensures ReadPmt(SectionBody(PmtSection())) == Some(PID_VIDEO)
  {
    hide SectionBody, SectionOf;
    SectionReadBack(PmtSection());
  }
}
