/** The announce packet and the table of discovered peers (src/discovery/lan_discovery.cpp). */
module Discovery {
  import opened Text
  import opened Protocol
  import opened Config

  const DISCOVERY_MAGIC: uint32 := 0x4C54_4C44
  const ID_SIZE: nat := 36
  const PREFIX_SIZE: nat := 44        // magic, version, port, device id and the name's length

  /** The packet names the platform the program was built for, not the configured one. */
  function BuildPlatform(): string { "linux" }

  datatype DiscoveredPeer = DiscoveredPeer(
    ipAddress: string, tcpPort: uint16, deviceId: string, displayName: string, platform: string,
    protocolVersion: byte, lastSeen: nat)

  // ---- Building --------------------------------------------------------------

  function Cut(s: string, n: nat): (r: string)
    ensures |r| <= n
  {
    if |s| > n then s[..n] else s
  }

  /** std::string::resize with NUL: pad or truncate. */
  function Resized(s: string, n: nat): (r: string)
    ensures |r| == n
  {
    if |s| >= n then s[..n] else s + seq(n - |s|, _ => '\0')
  }

  function LengthPrefixed(s: string): seq<byte>
    requires |s| <= 255
  {
    [|s|] + ToBytes(s)
  }

  function Announce(cfg: AppConfig): seq<byte> {
    Be32(DISCOVERY_MAGIC) + [1] + Be16(cfg.listenPort) + ToBytes(Resized(cfg.deviceId, ID_SIZE)) +
    LengthPrefixed(Cut(cfg.displayName, 255)) + LengthPrefixed(Cut(BuildPlatform(), 255))
  }

  method BuildAnnouncePacket(cfg: AppConfig) returns (pkt: seq<byte>)
    ensures pkt == Announce(cfg)
  {
    hide Be32, Be16, ToBytes, Resized, BuildPlatform;
    pkt := [];
    pkt := pkt + Be32(DISCOVERY_MAGIC);
    pkt := pkt + [1];
    pkt := pkt + Be16(cfg.listenPort);
    pkt := pkt + ToBytes(Resized(cfg.deviceId, ID_SIZE));
    var name := cfg.displayName;
    if |name| > 255 { name := name[..255]; }
    pkt := pkt + [|name|];
    pkt := pkt + ToBytes(name);
    var plat := BuildPlatform();
    if |plat| > 255 { plat := plat[..255]; }
    pkt := pkt + [|plat|];
    pkt := pkt + ToBytes(plat);
  }

  // ---- Parsing ---------------------------------------------------------------

  /** The text up to its first NUL. */
  function BeforeNul(s: string): string {
    if s == "" || s[0] == '\0' then "" else [s[0]] + BeforeNul(s[1..])
  }

  /** The packets the parser accepts: long enough for the fixed part, with the right magic, and
      with the whole name inside. */
  predicate Accepted(d: seq<byte>) {
    |d| >= PREFIX_SIZE && FromBe32(d[..4]) == DISCOVERY_MAGIC && PREFIX_SIZE + d[43] <= |d|
  }

  /** The platform is optional and dropped when it does not fit. */
  function PlatformAt(d: seq<byte>, at: nat): string {
    if at < |d| && at + 1 + (d[at] as int) <= |d| then FromBytes(d[at + 1..at + 1 + (d[at] as int)]) else ""
  }

  function Fields(d: seq<byte>, ip: string, now: nat): DiscoveredPeer
    requires Accepted(d)
  {
    var n := 44 + (d[43] as int);
    DiscoveredPeer(ip, FromBe16(d[5..7]), BeforeNul(FromBytes(d[7..43])),
      FromBytes(d[44..n]), PlatformAt(d, n), d[4], now)
  }

  function Parsed(d: seq<byte>, ip: string, now: nat): Option<DiscoveredPeer> {
    if Accepted(d) then Some(Fields(d, ip, now)) else None
  }

  /** The parser walks the packet with an offset; every access stays inside. */
  method ParseAnnouncePacket(data: seq<byte>, senderIp: string, now: nat) returns (r: Option<DiscoveredPeer>)
    ensures r == Parsed(data, senderIp, now)
  {
    hide FromBe32, FromBe16, FromBytes, BeforeNul;
    if |data| < 4 + 1 + 2 + 36 + 1 { return None; }
    var offset := 0;
    if FromBe32(data[offset..offset + 4]) != DISCOVERY_MAGIC { return None; }
    offset := offset + 4;
    var version := data[offset];
    offset := offset + 1;
    var port := FromBe16(data[offset..offset + 2]);
    offset := offset + 2;
    var deviceId := BeforeNul(FromBytes(data[offset..offset + 36]));
    offset := offset + 36;
    if offset >= |data| { return None; }
    var nameLen := data[offset];
    offset := offset + 1;
    if offset + nameLen > |data| { return None; }
    var name := FromBytes(data[offset..offset + nameLen]);
    offset := offset + nameLen;
    var platform := "";
    if offset < |data| {
      var platLen := data[offset];
      offset := offset + 1;
      if offset + platLen <= |data| { platform := FromBytes(data[offset..offset + platLen]); }
    }
    return Some(DiscoveredPeer(senderIp, port, deviceId, name, platform, version, now));
  }

  // ---- Round trip ------------------------------------------------------------

  lemma {:induction false} BeforeNulOfPadding(s: string, pad: string)
    requires pad == "" || pad[0] == '\0'
    ensures BeforeNul(s + pad) == BeforeNul(s)
  {
    if s == "" {
      assert s + pad == pad;
    } else {
      BeforeNulOfPadding(s[1..], pad);
      assert (s + pad)[1..] == s[1..] + pad;
    }
  }

  lemma ResizedBeforeNul(s: string, n: nat)
    ensures BeforeNul(Resized(s, n)) == BeforeNul(Cut(s, n))
  {
    if |s| < n { BeforeNulOfPadding(s, seq(n - |s|, _ => '\0')); }
    else { assert Cut(s, n) == s[..n]; }
  }

  lemma {:induction false} BeforeNulIsIdentity(s: string)
    ensures BeforeNul(s) == s <==> forall i :: 0 <= i < |s| ==> s[i] != '\0'
    ensures |BeforeNul(s)| <= |s|
  {
    if s != "" {
      BeforeNulIsIdentity(s[1..]);
      assert forall i :: 0 < i < |s| ==> s[i] == s[1..][i - 1];
      assert s == [s[0]] + s[1..];
      assert s[0] != '\0' && BeforeNul(s) == s ==> BeforeNul(s[1..]) == BeforeNul(s)[1..];
    }
  }

  /** Where the parts of a built packet lie. */
  lemma AnnounceLayout(cfg: AppConfig)
    ensures var d := Announce(cfg); var name := Cut(cfg.displayName, 255);
      && |d| == 44 + |name| + 1 + |BuildPlatform()| && d[..4] == Be32(DISCOVERY_MAGIC) && d[4] == 1
      && d[5..7] == Be16(cfg.listenPort) && d[7..43] == ToBytes(Resized(cfg.deviceId, ID_SIZE)) && d[43] == |name|
      && d[44..44 + |name|] == ToBytes(name)
      && d[44 + |name|] == |BuildPlatform()| && d[45 + |name|..] == ToBytes(BuildPlatform())
  {
    hide Be32, Be16, ToBytes, Resized;
  }

  lemma BytesOfResized(s: string, n: nat)
    requires ByteText(s)
    ensures ByteText(Resized(s, n)) && ByteText(Cut(s, n))
  {
    var r := Resized(s, n);
    forall i | 0 <= i < |r| ensures r[i] as int < 256 {
      assert i < |s| ==> r[i] == s[i];
      assert i >= |s| ==> r[i] == '\0';
    }
    var c := Cut(s, n);
    forall i | 0 <= i < |c| ensures c[i] as int < 256 {
      assert c[i] == s[i];
    }
  }

  /** Parsing a built packet yields the port, version 1, the device id cut to 36 bytes and at
      its first NUL, the name cut to 255 bytes, and the platform of the build. */
  lemma ParseBuilt(cfg: AppConfig, ip: string, now: nat)
    requires ByteText(cfg.deviceId) && ByteText(cfg.displayName)
    ensures Parsed(Announce(cfg), ip, now) == Some(DiscoveredPeer(ip, cfg.listenPort,
      BeforeNul(Cut(cfg.deviceId, ID_SIZE)), Cut(cfg.displayName, 255), BuildPlatform(), 1, now))
  {
    hide Be32, FromBe32, FromBytes, ToBytes, Resized, BeforeNul, Announce;
    AnnounceLayout(cfg);
    BigEndian(DISCOVERY_MAGIC, [0, 0, 0, 0]);
    assert FromBe16(Be16(cfg.listenPort)) == cfg.listenPort;
    BytesOfResized(cfg.deviceId, ID_SIZE);
    BytesOfResized(cfg.displayName, 255);
    BytesRoundTrip(Resized(cfg.deviceId, ID_SIZE));
    BytesRoundTrip(Cut(cfg.displayName, 255));
    BytesRoundTrip(BuildPlatform());
    ResizedBeforeNul(cfg.deviceId, ID_SIZE);
    var d, at := Announce(cfg), 44 + |Cut(cfg.displayName, 255)|;
    assert Accepted(d) && (d[43] as int) == |Cut(cfg.displayName, 255)|;
    assert at + 1 + (d[at] as int) == |d| && d[at + 1..at + 1 + (d[at] as int)] == d[at + 1..];
    assert PlatformAt(d, at) == BuildPlatform();
  }

  /** The identity survives exactly when the id has at most 36 bytes and no NUL, and the name at
      most 255 bytes. */
  lemma AnnounceRoundTrip(cfg: AppConfig, ip: string, now: nat)
    requires ByteText(cfg.deviceId) && ByteText(cfg.displayName)
    ensures var r := Parsed(Announce(cfg), ip, now);
      && r.Some?
      && (r.value.deviceId == cfg.deviceId <==>
            |cfg.deviceId| <= ID_SIZE && forall i :: 0 <= i < |cfg.deviceId| ==> cfg.deviceId[i] != '\0')
      && (r.value.displayName == cfg.displayName <==> |cfg.displayName| <= 255)
  {
    hide Announce, Parsed, BeforeNul;
    ParseBuilt(cfg, ip, now);
    BeforeNulIsIdentity(Cut(cfg.deviceId, ID_SIZE));
  }

  // ---- Byte by byte ----------------------------------------------------------

  /** The bytes `d` from position `at` on are the characters of `s`. */
  ghost predicate Spells(d: seq<byte>, at: nat, s: string) {
    at + |s| <= |d| && forall i :: 0 <= i < |s| ==> d[at + i] == s[i] as int % 256
  }

  /** The magic "LTLD". */
  predicate Marked(d: seq<byte>)
    requires |d| >= 4
  {
    d[0] == 0x4C && d[1] == 0x54 && d[2] == 0x4C && d[3] == 0x44
  }

  lemma MarkIs(a: byte, b: byte, c: byte, d: byte)
    ensures (a as int) * 0x100_0000 + (b as int) * 0x1_0000 + (c as int) * 0x100 + (d as int) == 0x4C54_4C44 <==>
      a == 0x4C && b == 0x54 && c == 0x4C && d == 0x44
  {}

  /** A packet is refused exactly when it is too short, has another magic, or ends inside the name. */
  lemma RefusedPackets(d: seq<byte>, ip: string, now: nat)
    ensures Parsed(d, ip, now).None? <==> |d| < 44 || !Marked(d) || 44 + (d[43] as int) > |d|
  {
    hide Fields;
    if |d| >= 44 {
      FromBe32Is(d[..4]);
      MarkIs(d[0], d[1], d[2], d[3]);
      hide FromBe32;
    }
  }

  /** The text up to the first NUL: nothing before its end is one, and one follows unless the text is all. */
  lemma {:induction false} BeforeNulIs(s: string)
    ensures var r := BeforeNul(s);
      && r <= s && (forall i :: 0 <= i < |r| ==> r[i] != '\0') && (|r| < |s| ==> s[|r|] == '\0')
  {
    if s != "" { BeforeNulIs(s[1..]); }
  }

  /** What is read from an accepted packet, and from where. */
  lemma PacketRead(d: seq<byte>, ip: string, now: nat)
    requires Parsed(d, ip, now).Some?
    ensures var r := Parsed(d, ip, now).value; var at := 44 + (d[43] as int);
      && r.ipAddress == ip && r.lastSeen == now
      && r.protocolVersion == d[4] && r.tcpPort == (d[5] as int) * 0x100 + (d[6] as int)
      && IdAt(d, r.deviceId)
      && Spells(d, 44, r.displayName) && |r.displayName| == d[43] as int
      && (if at < |d| && at + 1 + (d[at] as int) <= |d|
          then Spells(d, at + 1, r.platform) && |r.platform| == d[at] as int
          else r.platform == "")
  {
    hide FromBe32, BeforeNul, IdAt;
    IdIsRead(d);
  }

  /** The 36 bytes of the device id, up to the first NUL. */
  ghost predicate IdAt(d: seq<byte>, id: string) {
    && |d| >= 43 && |id| <= 36 && Spells(d, 7, id) && '\0' !in id
    && (|id| < 36 ==> d[7 + |id|] == 0)
  }

  lemma IdIsRead(d: seq<byte>)
    requires |d| >= 44
    ensures IdAt(d, BeforeNul(FromBytes(d[7..43])))
  {
    hide BeforeNul;
    var s := FromBytes(d[7..43]);
    BeforeNulIs(s);
    assert forall i :: 0 <= i < 36 ==> s[i] == d[7 + i] as char;
  }

  lemma PartSpells(d: seq<byte>, at: nat, s: string)
    requires at + |s| <= |d| && d[at..at + |s|] == ToBytes(s)
    ensures Spells(d, at, s)
  {
    var part := d[at..at + |s|];
    assert forall i :: 0 <= i < |s| ==> part[i] == d[at + i] && part[i] == s[i] as int % 256;
  }

  /** The bytes of a built packet. */
  lemma AnnounceBytes(cfg: AppConfig)
    ensures var d := Announce(cfg); var at := 44 + (d[43] as int);
      && |d| >= 44 && Marked(d) && d[4] == 1
      && d[5] == cfg.listenPort / 0x100 && d[6] == cfg.listenPort % 0x100
      && PaddedId(d, cfg.deviceId)
      && (if |cfg.displayName| <= 255
          then d[43] as int == |cfg.displayName| && Spells(d, 44, cfg.displayName)
          else d[43] == 255 && Spells(d, 44, cfg.displayName[..255]))
      && |d| == at + 6 && d[at] == 5 && Spells(d, at + 1, "linux")
  {
    hide *;
    AnnounceLayout(cfg);
    BuiltFor();
    CutIs(cfg.displayName, 255);
    PortBytes(cfg.listenPort);
    var d, name, plat := Announce(cfg), Cut(cfg.displayName, 255), BuildPlatform();
    var at := 44 + |name|;
    assert d[at + 1..at + 1 + |plat|] == d[at + 1..];
    PartSpells(d, 44, name);
    PartSpells(d, 7, Resized(cfg.deviceId, ID_SIZE));
    PartSpells(d, at + 1, plat);
    ResizedIsPadded(d, cfg.deviceId);
    MarkedPart(d);
    assert d[5..7][0] == d[5] && d[5..7][1] == d[6];
  }

  lemma BuiltFor()
    ensures BuildPlatform() == "linux" && |BuildPlatform()| == 5 && ID_SIZE == 36 && DISCOVERY_MAGIC == 0x4C54_4C44
  {}

  lemma CutIs(s: string, n: nat)
    ensures if |s| <= n then Cut(s, n) == s else Cut(s, n) == s[..n] && |Cut(s, n)| == n
  {}

  lemma PortBytes(port: uint16)
    ensures Be16(port)[0] == port / 0x100 && Be16(port)[1] == port % 0x100
  {}

  lemma MarkedPart(d: seq<byte>)
    requires |d| >= 4 && d[..4] == Be32(0x4C54_4C44)
    ensures Marked(d)
  {
    Be32Bytes(0x4C54_4C44);
    hide Be32;
    assert forall i :: 0 <= i < 4 ==> d[i] == d[..4][i];
  }

  /** The id takes 36 bytes: cut there, or filled up with NULs. */
  ghost predicate PaddedId(d: seq<byte>, id: string) {
    && |d| >= 43
    && if |id| <= 36 then Spells(d, 7, id) && forall i :: 7 + |id| <= i < 43 ==> d[i] == 0
       else Spells(d, 7, id[..36])
  }

  lemma ResizedIsPadded(d: seq<byte>, id: string)
    requires |d| >= 43 && Spells(d, 7, Resized(id, ID_SIZE))
    ensures PaddedId(d, id)
  {
    var r := Resized(id, ID_SIZE);
    if |id| <= 36 {
      forall i | 7 + |id| <= i < 43 ensures d[i] == 0 { assert d[7 + (i - 7)] == r[i - 7] as int % 256; }
    }
  }

  // ---- The result table of a scan --------------------------------------------

  datatype Datagram = Datagram(data: seq<byte>, ip: string, now: nat)

  /** The accepted packets of other devices, in order of arrival. */
  function Sightings(own: string, ds: seq<Datagram>): seq<DiscoveredPeer> {
    if ds == [] then []
    else
      var d := ds[|ds| - 1];
      var r := Parsed(d.data, d.ip, d.now);
      Sightings(own, ds[..|ds| - 1]) + if r.Some? && r.value.deviceId != own then [r.value] else []
  }

  predicate SeenId(seen: seq<DiscoveredPeer>, id: string) {
    exists k :: 0 <= k < |seen| && seen[k].deviceId == id
  }

  /** The first sighting of each device id. */
  function Firsts(seen: seq<DiscoveredPeer>): seq<DiscoveredPeer> {
    if seen == [] then []
    else
      var k := |seen| - 1;
      Firsts(seen[..k]) + if SeenId(seen[..k], seen[k].deviceId) then [] else [seen[k]]
  }

  /** The latest sighting of a device id. */
  function Latest(seen: seq<DiscoveredPeer>, id: string): DiscoveredPeer
    requires SeenId(seen, id)
  {
    var k := |seen| - 1;
    if seen[k].deviceId == id then seen[k]
    else
      assert SeenId(seen[..k], id) by {
        var i :| 0 <= i < |seen| && seen[i].deviceId == id;
        assert seen[..k][i].deviceId == id;
      }
      Latest(seen[..k], id)
  }

  function FirstIndex(seen: seq<DiscoveredPeer>, id: string): (k: nat)
    requires SeenId(seen, id)
    ensures k < |seen| && seen[k].deviceId == id && forall j :: 0 <= j < k ==> seen[j].deviceId != id
  {
    if seen[0].deviceId == id then 0
    else
      assert SeenId(seen[1..], id) by {
        var i :| 0 <= i < |seen| && seen[i].deviceId == id;
        assert seen[1..][i - 1].deviceId == id;
      }
      var k := 1 + FirstIndex(seen[1..], id);
      assert forall j :: 0 < j < |seen| ==> seen[j] == seen[1..][j - 1];
      k
  }

  /** One entry for each id seen, its first sighting, in order of first sight. */
  ghost predicate InOrder(seen: seq<DiscoveredPeer>, fs: seq<DiscoveredPeer>) {
    && (forall i :: 0 <= i < |fs| ==> SeenId(seen, fs[i].deviceId) && fs[i] == seen[FirstIndex(seen, fs[i].deviceId)])
    && (forall i, j :: 0 <= i < j < |fs| ==>
          SeenId(seen, fs[i].deviceId) && SeenId(seen, fs[j].deviceId) &&
          FirstIndex(seen, fs[i].deviceId) < FirstIndex(seen, fs[j].deviceId))
    && (forall k :: 0 <= k < |seen| ==> SeenId(fs, seen[k].deviceId))
  }

  lemma FirstIndexStays(before: seq<DiscoveredPeer>, p: DiscoveredPeer, id: string)
    requires SeenId(before, id)
    ensures SeenId(before + [p], id) && FirstIndex(before + [p], id) == FirstIndex(before, id)
  {
    var k := FirstIndex(before, id);
    assert (before + [p])[k].deviceId == id;
    var m := FirstIndex(before + [p], id);
    assert forall i :: 0 <= i < |before| ==> (before + [p])[i] == before[i];
  }

  lemma OrderStep(before: seq<DiscoveredPeer>, p: DiscoveredPeer, fs: seq<DiscoveredPeer>)
    requires InOrder(before, fs)
    ensures InOrder(before + [p], fs + if SeenId(before, p.deviceId) then [] else [p])
  {
    hide FirstIndex, SeenId;
    var seen, fs' := before + [p], fs + if SeenId(before, p.deviceId) then [] else [p];
    NewIds(before, p, fs);
    forall i | 0 <= i < |fs| ensures SeenId(seen, fs[i].deviceId)
      && FirstIndex(seen, fs[i].deviceId) == FirstIndex(before, fs[i].deviceId) {
      FirstIndexStays(before, p, fs[i].deviceId);
    }
    if !SeenId(before, p.deviceId) { NewFirst(before, p); }
  }

  lemma NewFirst(before: seq<DiscoveredPeer>, p: DiscoveredPeer)
    requires !SeenId(before, p.deviceId)
    ensures SeenId(before + [p], p.deviceId) && FirstIndex(before + [p], p.deviceId) == |before|
  {
    var seen := before + [p];
    assert seen[|before|] == p;
    assert forall j :: 0 <= j < |before| ==> seen[j] == before[j] && before[j].deviceId != p.deviceId;
  }

  lemma NewIds(before: seq<DiscoveredPeer>, p: DiscoveredPeer, fs: seq<DiscoveredPeer>)
    requires forall k :: 0 <= k < |before| ==> SeenId(fs, before[k].deviceId)
    ensures var all := fs + if SeenId(before, p.deviceId) then [] else [p];
      forall k :: 0 <= k < |before + [p]| ==> SeenId(all, (before + [p])[k].deviceId)
  {
    var all := fs + if SeenId(before, p.deviceId) then [] else [p];
    forall id | SeenId(fs, id) ensures SeenId(all, id) {
      var i :| 0 <= i < |fs| && fs[i].deviceId == id;
      assert all[i].deviceId == id;
    }
    if SeenId(before, p.deviceId) {
      var k :| 0 <= k < |before| && before[k].deviceId == p.deviceId;
      assert SeenId(fs, before[k].deviceId);
    } else {
      assert all[|fs|].deviceId == p.deviceId;
    }
  }

  lemma {:induction false} FirstsInOrder(seen: seq<DiscoveredPeer>)
    ensures InOrder(seen, Firsts(seen))
  {
    if seen != [] {
      hide InOrder, SeenId;
      var before, p := seen[..|seen| - 1], seen[|seen| - 1];
      FirstsInOrder(before);
      OrderStep(before, p, Firsts(before));
      assert before + [p] == seen;
      assert Firsts(seen) == Firsts(before) + if SeenId(before, p.deviceId) then [] else [p];
    }
  }

  ghost predicate LastAt(seen: seq<DiscoveredPeer>, k: nat, id: string) {
    k < |seen| && seen[k].deviceId == id && forall j :: k < j < |seen| ==> seen[j].deviceId != id
  }

  lemma SeenBefore(seen: seq<DiscoveredPeer>, id: string)
    requires SeenId(seen, id) && seen[|seen| - 1].deviceId != id
    ensures SeenId(seen[..|seen| - 1], id)
  {
    var i :| 0 <= i < |seen| && seen[i].deviceId == id;
    assert seen[..|seen| - 1][i] == seen[i];
  }

  lemma StillLast(seen: seq<DiscoveredPeer>, m: nat, id: string)
    requires seen != [] && seen[|seen| - 1].deviceId != id && LastAt(seen[..|seen| - 1], m, id)
    ensures LastAt(seen, m, id) && seen[m] == seen[..|seen| - 1][m]
  {
    var before := seen[..|seen| - 1];
    assert forall j :: 0 <= j < |before| ==> seen[j] == before[j];
  }

  lemma {:induction false} LatestIs(seen: seq<DiscoveredPeer>, id: string)
    requires SeenId(seen, id)
    ensures exists k: nat :: LastAt(seen, k, id) && Latest(seen, id) == seen[k]
  {
    var k := |seen| - 1;
    if seen[k].deviceId != id {
      SeenBefore(seen, id);
      LatestIs(seen[..k], id);
      assert Latest(seen, id) == Latest(seen[..k], id);
      hide Latest, SeenId;
      var m: nat :| LastAt(seen[..k], m, id) && Latest(seen[..k], id) == seen[..k][m];
      StillLast(seen, m, id);
    } else {
      assert LastAt(seen, k, id);
    }
  }

  /** The table kept while scanning: the ids in order of first sight, each with its latest
      packet. */
  ghost predicate IsTable(seen: seq<DiscoveredPeer>, results: seq<DiscoveredPeer>) {
    var fs := Firsts(seen);
    && |results| == |fs|
    && forall i :: 0 <= i < |fs| ==> SeenId(seen, fs[i].deviceId) && results[i] == Latest(seen, fs[i].deviceId)
  }

  lemma LatestStep(before: seq<DiscoveredPeer>, p: DiscoveredPeer, id: string)
    ensures id == p.deviceId ==> SeenId(before + [p], id) && Latest(before + [p], id) == p
    ensures id != p.deviceId && SeenId(before, id) ==>
      SeenId(before + [p], id) && Latest(before + [p], id) == Latest(before, id)
  {
    var seen := before + [p];
    assert seen[|before|] == p && seen[..|before|] == before;
    if SeenId(before, id) {
      var i :| 0 <= i < |before| && before[i].deviceId == id;
      assert seen[i].deviceId == id;
    }
  }

  /** One more sighting: replace the entry with its id, or append it. */
  method Sighted(ghost seen: seq<DiscoveredPeer>, table: seq<DiscoveredPeer>, peer: DiscoveredPeer)
    returns (results: seq<DiscoveredPeer>, found: bool)
    requires IsTable(seen, table)
    ensures IsTable(seen + [peer], results) && found == SeenId(seen, peer.deviceId)
  {
    results, found := table, false;
    var i := 0;
    ghost var fs := Firsts(seen);
    TableIds(seen, table);
    while i < |results| && !found
      invariant 0 <= i <= |results|
      invariant !found ==> results == table && forall j :: 0 <= j < i ==> table[j].deviceId != peer.deviceId
      invariant found ==> exists j ::
        0 <= j < |table| && table[j].deviceId == peer.deviceId && results == table[j := peer]
    {
      if results[i].deviceId == peer.deviceId {
        results := results[i := peer];
        found := true;
      }
      i := i + 1;
    }
    if found {
      ghost var j :| 0 <= j < |table| && table[j].deviceId == peer.deviceId && results == table[j := peer];
      TableReplaced(seen, table, peer, j);
    } else {
      results := results + [peer];
      TableGrown(seen, table, peer);
    }
  }

  /** The table has exactly one entry for each id seen. */
  lemma TableIds(seen: seq<DiscoveredPeer>, table: seq<DiscoveredPeer>)
    requires IsTable(seen, table)
    ensures forall i :: 0 <= i < |table| ==> table[i].deviceId == Firsts(seen)[i].deviceId
    ensures forall i, j :: 0 <= i < j < |table| ==> table[i].deviceId != table[j].deviceId
    ensures forall id :: SeenId(seen, id) <==> exists i :: 0 <= i < |table| && table[i].deviceId == id
  {
    hide Firsts, Latest, SeenId, FirstIndex;
    var fs := Firsts(seen);
    FirstsInOrder(seen);
    forall i | 0 <= i < |table| ensures table[i].deviceId == fs[i].deviceId {
      LatestIs(seen, fs[i].deviceId);
    }
    forall id | SeenId(seen, id) ensures exists i :: 0 <= i < |table| && table[i].deviceId == id {
      var k := SeenAt(seen, id);
      var i := SeenAt(fs, seen[k].deviceId);
      assert table[i].deviceId == id;
    }
  }

  lemma SeenAt(seen: seq<DiscoveredPeer>, id: string) returns (k: nat)
    requires SeenId(seen, id)
    ensures k < |seen| && seen[k].deviceId == id
  {
    k :| 0 <= k < |seen| && seen[k].deviceId == id;
  }

  lemma TableReplaced(seen: seq<DiscoveredPeer>, table: seq<DiscoveredPeer>, peer: DiscoveredPeer, j: nat)
    requires IsTable(seen, table) && j < |table| && table[j].deviceId == peer.deviceId
    ensures SeenId(seen, peer.deviceId) && IsTable(seen + [peer], table[j := peer])
  {
    hide Latest, SeenId;
    TableIds(seen, table);
    FirstsGrow(seen, peer);
    var fs := Firsts(seen);
    forall i | 0 <= i < |fs| ensures SeenId(seen + [peer], fs[i].deviceId)
      && table[j := peer][i] == Latest(seen + [peer], fs[i].deviceId) {
      LatestStep(seen, peer, fs[i].deviceId);
    }
  }

  lemma TableGrown(seen: seq<DiscoveredPeer>, table: seq<DiscoveredPeer>, peer: DiscoveredPeer)
    requires IsTable(seen, table) && forall i :: 0 <= i < |table| ==> table[i].deviceId != peer.deviceId
    ensures !SeenId(seen, peer.deviceId) && IsTable(seen + [peer], table + [peer])
  {
    hide Latest, SeenId;
    TableIds(seen, table);
    FirstsGrow(seen, peer);
    var fs, all := Firsts(seen), Firsts(seen + [peer]);
    forall i | 0 <= i < |all| ensures SeenId(seen + [peer], all[i].deviceId)
      && (table + [peer])[i] == Latest(seen + [peer], all[i].deviceId) {
      LatestStep(seen, peer, all[i].deviceId);
    }
  }

  lemma FirstsGrow(seen: seq<DiscoveredPeer>, peer: DiscoveredPeer)
    ensures Firsts(seen + [peer]) == Firsts(seen) + if SeenId(seen, peer.deviceId) then [] else [peer]
  {
    hide SeenId;
    assert (seen + [peer])[..|seen|] == seen;
  }

  /** For any sequence of datagrams: `results` lists the other devices in order of first sight,
      each with its latest accepted packet, and the callback fired once for each, with the
      first one. */
  method Scan(own: string, ds: seq<Datagram>) returns (results: seq<DiscoveredPeer>, calls: seq<DiscoveredPeer>)
    ensures IsTable(Sightings(own, ds), results)
    ensures calls == Firsts(Sightings(own, ds))
  {
    hide Parsed, Firsts, IsTable;
    results, calls := [], [];
    EmptyTable();
    var i := 0;
    while i < |ds|
      invariant 0 <= i <= |ds|
      invariant IsTable(Sightings(own, ds[..i]), results)
      invariant calls == Firsts(Sightings(own, ds[..i]))
    {
      ghost var seen := Sightings(own, ds[..i]);
      assert ds[..i + 1][..i] == ds[..i];
      assert seen + [] == seen;
      var peer := ParseAnnouncePacket(ds[i].data, ds[i].ip, ds[i].now);
      if peer.Some? && peer.value.deviceId != own {
        FirstsGrow(seen, peer.value);
        var found;
        results, found := Sighted(seen, results, peer.value);
        if !found { calls := calls + [peer.value]; } else { assert calls + [] == calls; }
      }
      i := i + 1;
    }
    assert ds[..|ds|] == ds;
  }

  lemma EmptyTable()
    ensures IsTable([], []) && Firsts([]) == []
  {}

  /** What the table is, independently of how it is kept: distinct ids other than our own, in
      order of first sight. */
  lemma {:induction false} TableLists(own: string, ds: seq<Datagram>, results: seq<DiscoveredPeer>)
    requires IsTable(Sightings(own, ds), results)
    ensures forall i, j :: 0 <= i < j < |results| ==> results[i].deviceId != results[j].deviceId
    ensures forall i :: 0 <= i < |results| ==> results[i].deviceId != own
    ensures forall id :: SeenId(Sightings(own, ds), id) <==> SeenId(results, id)
  {
    hide Latest, Firsts;
    var seen := Sightings(own, ds);
    TableIds(seen, results);
    OthersOnly(own, ds);
    forall i | 0 <= i < |results| ensures results[i].deviceId != own {
      var k := SeenAt(seen, results[i].deviceId);
    }
  }

  lemma {:induction false} OthersOnly(own: string, ds: seq<Datagram>)
    ensures forall k :: 0 <= k < |Sightings(own, ds)| ==> Sightings(own, ds)[k].deviceId != own
  {
    hide Parsed;
    if ds != [] { OthersOnly(own, ds[..|ds| - 1]); }
  }
}
