/**
 * Matching a network link with its RDMA link (internal/drivers/utils_linux.go): the RDMA node GUID is
 * the link's MAC widened to a modified EUI-64 (RFC 4291, Appendix A), printed last byte first. The
 * driver parses it into one 8-byte buffer and closes the gap in the middle in place.
 */
module HwAddr {
  import opened Prelude
  import opened Text

  type Bytes = seq<bv8>

  const UNIVERSAL_LOCAL: bv8 := 2

  datatype GuidError = NotEightGroups | BadGroup(index: nat)

  datatype RdmaLink = RdmaLink(name: string, nodeGuid: string)

  datatype FindError = ListFailed | BadGuid(index: nat) | NotFound

  // ---------- What the driver computes, on values ----------

  /** net.HardwareAddr.String: two lower-case digits a byte, joined by colons. */
  function Render(addr: Bytes): string {
    Join(Pairs(addr), ':')
  }

  function Pairs(addr: Bytes): (pairs: seq<string>)
    ensures |pairs| == |addr|
  {
    seq(|addr|, k requires 0 <= k < |addr| => HexPair(addr[k]))
  }

  predicate Parses(groups: seq<string>) {
    forall k :: 0 <= k < |groups| ==> ParseByte(groups[k]).Some?
  }

  function Groups(guid: string): seq<string> {
    Split(guid, ':')
  }

  /** The eight bytes of a GUID in the order printed, if it is well formed. */
  function GuidBytes(guid: string): (bytes: Option<Bytes>)
    ensures bytes.Some? ==> |bytes.value| == 8
  {
    var groups := Groups(guid);
    if |groups| == 8 && Parses(groups)
    then Some(seq(8, k requires 0 <= k < 8 => ParseByte(groups[k]).value))
    else None
  }

  /** The six bytes the driver keeps: the GUID read backwards, without its two middle bytes. */
  function HwAddrOf(guid: string): Option<Bytes> {
    var b := GuidBytes(guid);
    if b.None? then None
    else Some([b.value[7], b.value[6], b.value[5], b.value[2], b.value[1], b.value[0]])
  }

  /** The address compared with: the link's own, its universal/local bit inverted. */
  function LookedFor(addr: Bytes): (flipped: Bytes)
    requires |addr| > 0
    ensures |flipped| == |addr|
  {
    [addr[0] ^ UNIVERSAL_LOCAL] + addr[1..]
  }

  ghost predicate Matches(guid: string, addr: Bytes)
    requires |addr| > 0
  {
    HwAddrOf(guid) == Some(LookedFor(addr))
  }

  // ---------- The printed GUID of a MAC ----------

  predicate IsMac(addr: Bytes) {
    |addr| == 6
  }

  /** The modified EUI-64 of a MAC; RFC 4291 puts FF and FE in the middle, any two bytes will do here. */
  function Eui64(mac: Bytes, high: bv8, low: bv8): (id: Bytes)
    requires IsMac(mac)
    ensures |id| == 8
  {
    [mac[0] ^ UNIVERSAL_LOCAL, mac[1], mac[2], high, low, mac[3], mac[4], mac[5]]
  }

  function Backwards(b: Bytes): (r: Bytes)
    ensures |r| == |b|
  {
    seq(|b|, k requires 0 <= k < |b| => b[|b| - 1 - k])
  }

  function PrintedGuid(mac: Bytes, high: bv8, low: bv8): string
    requires IsMac(mac)
  {
    Render(Backwards(Eui64(mac, high, low)))
  }

  /** Inverting the bit, in arithmetic. */
  lemma BitInverted(b: bv8)
    ensures (b ^ UNIVERSAL_LOCAL) as int == if b as int / 2 % 2 == 0 then b as int + 2 else b as int - 2
  {
    BitFacts(b);
    HalfAsInt(b);
  }

  lemma HalfAsInt(b: bv8)
    ensures (b / 2 % 2) as int == b as int / 2 % 2
  {
    assert (b / 2) as int == b as int / 2;
  }

  lemma BitFacts(b: bv8)
    ensures if b / 2 % 2 == 0 then b <= 253 && b ^ UNIVERSAL_LOCAL == b + 2 else b >= 2 && b ^ UNIVERSAL_LOCAL == b - 2
  {}

  /** The address looked for and the EUI-64 both start with the first byte of the address, the bit of value 2 inverted;
      RFC 4291 calls it the universal/local bit. All other bytes are the address's own. */
  lemma UniversalLocalInverted(addr: Bytes, high: bv8, low: bv8)
    requires addr != []
    ensures LookedFor(addr)[0] as int == if addr[0] as int / 2 % 2 == 0 then addr[0] as int + 2 else addr[0] as int - 2
    ensures forall k :: 1 <= k < |addr| ==> LookedFor(addr)[k] == addr[k]
    ensures IsMac(addr) ==>
      && Eui64(addr, high, low)[0] as int ==
         (if addr[0] as int / 2 % 2 == 0 then addr[0] as int + 2 else addr[0] as int - 2)
      && Eui64(addr, high, low)[1..] == addr[1..3] + [high, low] + addr[3..]
  {
    BitInverted(addr[0]);
  }

  // ---------- Printing and parsing ----------

  lemma PairsParse(addr: Bytes)
    ensures Parses(Pairs(addr))
    ensures forall k :: 0 <= k < |addr| ==> ParseByte(Pairs(addr)[k]) == Some(addr[k]) && ':' !in Pairs(addr)[k]
  {
    forall k | 0 <= k < |addr|
      ensures ParseByte(Pairs(addr)[k]) == Some(addr[k]) && ':' !in Pairs(addr)[k]
    {
      HexPairRoundTrip(addr[k]);
    }
  }

  lemma GroupsOfRendered(addr: Bytes)
    requires addr != []
    ensures Groups(Render(addr)) == Pairs(addr)
  {
    PairsParse(addr);
    SplitJoin(Pairs(addr), ':');
  }

  /** Comparing two printed addresses compares the addresses. */
  lemma RenderInjective(a: Bytes, b: Bytes)
    ensures Render(a) == Render(b) <==> a == b
  {
    if Render(a) == Render(b) {
      if a == [] || b == [] {
        RenderedLength(a);
        RenderedLength(b);
      } else {
        GroupsOfRendered(a);
        GroupsOfRendered(b);
        PairsParse(a);
        PairsParse(b);
        assert forall k :: 0 <= k < |a| ==> Some(a[k]) == ParseByte(Pairs(a)[k]) == Some(b[k]);
      }
    }
  }

  lemma RenderedLength(addr: Bytes)
    ensures Render(addr) == "" <==> addr == []
  {
    if addr != [] {
      assert |Pairs(addr)[0]| == 2;
    }
  }

  lemma PrintedBytes(b: Bytes)
    requires |b| == 8
    ensures GuidBytes(Render(b)) == Some(b)
  {
    GroupsOfRendered(b);
    PairsParse(b);
    assert GuidBytes(Render(b)).value == b;
  }

  /** The round trip: the GUID of any MAC, whatever its two middle bytes, parses to the address looked for. */
  lemma MacRoundTrip(mac: Bytes, high: bv8, low: bv8)
    requires IsMac(mac)
    ensures Matches(PrintedGuid(mac, high, low), mac)
  {
    var id := Eui64(mac, high, low);
    PrintedBytes(Backwards(id));
    assert HwAddrOf(PrintedGuid(mac, high, low)).value == LookedFor(mac);
  }

  lemma FlipTwice(b: bv8)
    ensures (b ^ UNIVERSAL_LOCAL) ^ UNIVERSAL_LOCAL == b
  {
  }

  lemma LookedForInjective(a: Bytes, b: Bytes)
    requires a != [] && b != []
    ensures LookedFor(a) == LookedFor(b) <==> a == b
  {
    if LookedFor(a) == LookedFor(b) {
      FlipTwice(a[0]);
      FlipTwice(b[0]);
      assert LookedFor(a)[0] == LookedFor(b)[0] && LookedFor(a)[1..] == a[1..] && LookedFor(b)[1..] == b[1..];
      assert a == [a[0]] + a[1..] && b == [b[0]] + b[1..];
    }
  }

  /** Two different addresses never match one GUID, however that GUID is written. */
  lemma OneMacPerGuid(guid: string, a: Bytes, b: Bytes)
    requires a != [] && b != []
    requires Matches(guid, a) && Matches(guid, b)
    ensures a == b
  {
    LookedForInjective(a, b);
  }

  ghost predicate IsGuidOf(guid: string, mac: Bytes)
    requires IsMac(mac)
  {
    exists high, low :: GuidBytes(guid) == Some(Backwards(Eui64(mac, high, low)))
  }

  lemma MatchedIsGuidOf(guid: string, mac: Bytes)
    requires IsMac(mac) && Matches(guid, mac)
    ensures IsGuidOf(guid, mac)
  {
    var b, kept, wanted := GuidBytes(guid).value, HwAddrOf(guid).value, LookedFor(mac);
    assert kept[0] == wanted[0] && kept[1] == wanted[1] && kept[2] == wanted[2];
    assert kept[3] == wanted[3] && kept[4] == wanted[4] && kept[5] == wanted[5];
    assert b == Backwards(Eui64(mac, b[4], b[3]));
  }

  /** What matching decides: the GUID's bytes are the MAC's EUI-64 backwards, for some middle bytes. */
  lemma MatchesExactly(guid: string, mac: Bytes)
    requires IsMac(mac)
    ensures Matches(guid, mac) <==> IsGuidOf(guid, mac)
  {
    if Matches(guid, mac) {
      MatchedIsGuidOf(guid, mac);
    }
    if IsGuidOf(guid, mac) {
      var high, low :| GuidBytes(guid) == Some(Backwards(Eui64(mac, high, low)));
      assert HwAddrOf(guid).value == LookedFor(mac);
    }
  }

  /** A pair of hexadecimal digits at position k of a string of pairs, and the colon after it. */
  predicate Spells(s: string, k: nat, b: int) {
    3 * k + 1 < |s| && HexDigit(s[3 * k]) == Some(b / 16) && HexDigit(s[3 * k + 1]) == Some(b % 16)
  }

  predicate PairAt(s: string, k: nat) {
    3 * k + 1 < |s| && s[3 * k] != ':' && s[3 * k + 1] != ':'
  }

  predicate Colon(s: string, k: nat) {
    3 * k + 2 < |s| && s[3 * k + 2] == ':'
  }

  /** Groups of two characters with a colon after each but the last. */
  lemma {:induction false} GroupsOfPairs(s: string, n: nat)
    requires n > 0 && |s| == 3 * n - 1
    requires forall k :: 0 <= k < n - 1 ==> Colon(s, k)
    requires forall k :: 0 <= k < n ==> PairAt(s, k)
    ensures |Groups(s)| == n && forall k :: 0 <= k < n ==> Groups(s)[k] == [s[3 * k], s[3 * k + 1]]
    decreases n
  {
    assert PairAt(s, 0);
    if n == 1 {
      assert s == [s[0], s[1]];
      SplitPlain(s, ':');
    } else {
      var first, rest := [s[0], s[1]], s[3..];
      assert Colon(s, 0);
      assert s == first + [':'] + rest;
      forall k | 0 <= k < n - 2
        ensures Colon(rest, k)
      {
        assert Colon(s, k + 1);
      }
      forall k | 0 <= k < n - 1
        ensures PairAt(rest, k)
      {
        assert PairAt(s, k + 1);
      }
      GroupsOfPairs(rest, n - 1);
      SplitFirst(first, ':', rest);
      GroupsShift(s, rest, n);
    }
  }

  lemma GroupsShift(s: string, rest: string, n: nat)
    requires n > 1 && |s| == 3 * n - 1 && rest == s[3..]
    requires |Groups(rest)| == n - 1 && forall k :: 0 <= k < n - 1 ==> Groups(rest)[k] == [rest[3 * k], rest[3 * k + 1]]
    requires Groups(s) == [[s[0], s[1]]] + Groups(rest)
    ensures forall k :: 0 <= k < n ==> Groups(s)[k] == [s[3 * k], s[3 * k + 1]]
  {
    forall k | 0 <= k < n
      ensures Groups(s)[k] == [s[3 * k], s[3 * k + 1]]
    {
      if k > 0 {
        assert Groups(s)[k] == Groups(rest)[k - 1];
        assert rest[3 * (k - 1)] == s[3 * k] && rest[3 * (k - 1) + 1] == s[3 * k + 1];
      }
    }
  }

  lemma SpelledGuid(guid: string, b: Bytes)
    requires |guid| == 23 && |b| == 8
    requires forall k :: 0 <= k < 7 ==> Colon(guid, k)
    requires forall k :: 0 <= k < 8 ==> Spells(guid, k, b[k] as int)
    ensures GuidBytes(guid) == Some(b)
  {
    forall k | 0 <= k < 8
      ensures PairAt(guid, k)
    {
      assert Spells(guid, k, b[k] as int);
    }
    GroupsOfPairs(guid, 8);
    forall k | 0 <= k < 8
      ensures ParseByte(Groups(guid)[k]) == Some(b[k])
    {
      assert Spells(guid, k, b[k] as int);
      TwoDigits(b[k] as int, guid[3 * k], guid[3 * k + 1]);
    }
    assert GuidBytes(guid).value == b;
  }

  lemma OneSpelling(guid: string, b: Bytes)
    requires guid == "03:02:01:fe:ff:3e:16:02" && b == [0x03, 0x02, 0x01, 0xfe, 0xff, 0x3e, 0x16, 0x02]
    ensures forall k :: 0 <= k < 8 ==> Spells(guid, k, b[k] as int)
  {
    assert Spells(guid, 0, 0x03) && Spells(guid, 1, 0x02) && Spells(guid, 2, 0x01) && Spells(guid, 3, 0xfe);
    assert Spells(guid, 4, 0xff) && Spells(guid, 5, 0x3e) && Spells(guid, 6, 0x16) && Spells(guid, 7, 0x02);
  }

  lemma OneGuid(guid: string)
    requires guid == "03:02:01:fe:ff:3e:16:02"
    ensures GuidBytes(guid) == Some([0x03, 0x02, 0x01, 0xfe, 0xff, 0x3e, 0x16, 0x02])
  {
    var b: Bytes := [0x03, 0x02, 0x01, 0xfe, 0xff, 0x3e, 0x16, 0x02];
    OneSpelling(guid, b);
    assert Colon(guid, 0) && Colon(guid, 1) && Colon(guid, 2) && Colon(guid, 3);
    assert Colon(guid, 4) && Colon(guid, 5) && Colon(guid, 6);
    SpelledGuid(guid, b);
  }

  /** An adapter and its RDMA link, byte by byte: 00:16:3e:01:02:03 has the EUI-64 02:16:3e:ff:fe:01:02:03. */
  lemma OneAdapter(guid: string, mac: Bytes)
    requires guid == "03:02:01:fe:ff:3e:16:02" && mac == [0x00, 0x16, 0x3e, 0x01, 0x02, 0x03]
    ensures Matches(guid, mac) && Eui64(mac, 0xff, 0xfe) == [0x02, 0x16, 0x3e, 0xff, 0xfe, 0x01, 0x02, 0x03]
  {
    OneGuid(guid);
    assert LookedFor(mac) == [0x02, 0x16, 0x3e, 0x01, 0x02, 0x03];
  }

  // ---------- The parser, as it is written ----------

  /** append(h[0:3], h[5:8]...) on a slice with room left: the last three bytes move down over the gap. */
  method CloseGap(h: array<bv8>)
    requires h.Length == 8
    modifies h
    ensures h[..6] == old(h[..3]) + old(h[5..])
    ensures h[6..] == old(h[6..])
  {
    ghost var before := h[..];
    for k := 0 to 3
      invariant forall j :: 3 <= j < 3 + k ==> h[j] == before[j + 2]
      invariant forall j :: 0 <= j < 8 && !(3 <= j < 3 + k) ==> h[j] == before[j]
    {
      h[3 + k] := h[5 + k];
    }
  }

  method ParseERdmaLinkHwAddr(guid: string) returns (r: Result<Bytes, GuidError>)
    ensures r.Ok? <==> HwAddrOf(guid).Some?
    ensures r.Ok? ==> Some(r.value) == HwAddrOf(guid)
    ensures r == Err(NotEightGroups) <==> |Groups(guid)| != 8
    ensures r.Err? && r.error.BadGroup? ==> r.error.index < 8 && ParseByte(Groups(guid)[r.error.index]).None?
    ensures r.Err? && r.error.BadGroup? ==> Parses(Groups(guid)[..r.error.index])
  {
    var h := new bv8[8];
    var groups := Split(guid, ':');
    if |groups| != 8 {
      return Err(NotEightGroups);
    }
    for i := 0 to 8
      invariant forall j :: 0 <= j < i ==> ParseByte(groups[j]) == Some(h[7 - j])
    {
      var b := ParseByte(groups[i]);
      if b.None? {
        return Err(BadGroup(i));
      }
      h[7 - i] := b.value;
    }
    ghost var bytes := GuidBytes(guid).value;
    assert forall j :: 0 <= j < 8 ==> bytes[j] == h[7 - j];
    ghost var before := h[..];
    CloseGap(h);
    assert h[..6] == before[..3] + before[5..] == HwAddrOf(guid).value;
    return Ok(h[..6]);
  }

  // ---------- Finding the RDMA link of a network link ----------

  /** The link parses and belongs to another address. */
  ghost predicate PassedOver(link: RdmaLink, addr: Bytes)
    requires |addr| > 0
  {
    HwAddrOf(link.nodeGuid).Some? && !Matches(link.nodeGuid, addr)
  }

  /** Link i is looked at: every link before it parses and belongs to another address. */
  ghost predicate Reached(links: seq<RdmaLink>, addr: Bytes, i: nat)
    requires |addr| > 0 && i <= |links|
  {
    forall j :: 0 <= j < i ==> PassedOver(links[j], addr)
  }

  ghost predicate FindsFirst(links: seq<RdmaLink>, addr: Bytes, r: Result<RdmaLink, FindError>)
    requires |addr| > 0
  {
    match r
    case Ok(link) =>
      exists i :: 0 <= i < |links| && links[i] == link && Reached(links, addr, i) && Matches(link.nodeGuid, addr)
    case Err(BadGuid(i)) => i < |links| && Reached(links, addr, i) && HwAddrOf(links[i].nodeGuid).None?
    case Err(NotFound) => Reached(links, addr, |links|)
    case Err(ListFailed) => false
  }

  /** A copy of the link's address with the bit inverted; the link's own slice is left alone. */
  method FlipFirst(addr: Bytes) returns (flipped: Bytes)
    requires |addr| > 0
    ensures flipped == LookedFor(addr)
  {
    var copy := new bv8[|addr|](k requires 0 <= k < |addr| => addr[k]);
    copy[0] := copy[0] ^ UNIVERSAL_LOCAL;
    return copy[..];
  }

  /** The first link whose GUID is the address's; one malformed GUID on the way ends the search. */
  method GetERdmaFromLink(addr: Bytes, listed: Option<seq<RdmaLink>>) returns (r: Result<RdmaLink, FindError>)
    requires |addr| > 0
    ensures r == Err(ListFailed) <==> listed.None?
    ensures listed.Some? ==> FindsFirst(listed.value, addr, r)
  {
    if listed.None? {
      return Err(ListFailed);
    }
    var links := listed.value;
    var wanted := FlipFirst(addr);
    for i := 0 to |links|
      invariant Reached(links, addr, i)
    {
      var parsed := ParseERdmaLinkHwAddr(links[i].nodeGuid);
      if parsed.Err? {
        return Err(BadGuid(i));
      }
      RenderInjective(parsed.value, wanted);
      if Render(parsed.value) == Render(wanted) {
        return Ok(links[i]);
      }
    }
    return Err(NotFound);
  }

  /** The links carry the GUIDs of these MACs, one each, no MAC twice. */
  ghost predicate LinksOf(links: seq<RdmaLink>, macs: seq<Bytes>) {
    && |links| == |macs|
    && (forall k :: 0 <= k < |macs| ==> IsMac(macs[k]) && IsGuidOf(links[k].nodeGuid, macs[k]))
    && (forall j, k :: 0 <= j < k < |macs| ==> macs[j] != macs[k])
  }

  lemma MatchesOwn(guid: string, own: Bytes, mac: Bytes)
    requires IsMac(own) && IsMac(mac) && IsGuidOf(guid, own)
    ensures HwAddrOf(guid).Some?
    ensures Matches(guid, mac) <==> own == mac
  {
    MatchesExactly(guid, own);
    if Matches(guid, mac) {
      OneMacPerGuid(guid, mac, own);
    }
  }

  lemma MatchesOwnAt(links: seq<RdmaLink>, macs: seq<Bytes>, mac: Bytes, k: nat)
    requires IsMac(mac) && LinksOf(links, macs) && k < |macs|
    ensures HwAddrOf(links[k].nodeGuid).Some? && (Matches(links[k].nodeGuid, mac) <==> macs[k] == mac)
  {
    MatchesOwn(links[k].nodeGuid, macs[k], mac);
  }

  /** Every adapter finds its own RDMA link, wherever it is listed, and a plain adapter finds none. */
  lemma OwnLinkIsFound(links: seq<RdmaLink>, macs: seq<Bytes>, mac: Bytes, r: Result<RdmaLink, FindError>)
    requires IsMac(mac) && LinksOf(links, macs) && FindsFirst(links, mac, r)
    ensures forall k :: 0 <= k < |macs| && macs[k] == mac ==> r == Ok(links[k])
    ensures mac !in macs ==> r == Err(NotFound)
  {
    match r
    case Ok(link) =>
      FoundIsOwn(links, macs, mac, link);
    case Err(BadGuid(i)) =>
      AllParse(links, macs, mac, i);
    case Err(NotFound) =>
      NoneIsOwn(links, macs, mac);
    case Err(ListFailed) =>
  }

  lemma FoundIsOwn(links: seq<RdmaLink>, macs: seq<Bytes>, mac: Bytes, link: RdmaLink)
    requires IsMac(mac) && LinksOf(links, macs) && FindsFirst(links, mac, Ok(link))
    ensures mac in macs && forall k :: 0 <= k < |macs| && macs[k] == mac ==> links[k] == link
  {
    var i: nat :| i < |links| && links[i] == link && Reached(links, mac, i) && Matches(link.nodeGuid, mac);
    MatchesOwnAt(links, macs, mac, i);
  }

  lemma AllParse(links: seq<RdmaLink>, macs: seq<Bytes>, mac: Bytes, i: nat)
    requires IsMac(mac) && LinksOf(links, macs)
    ensures !FindsFirst(links, mac, Err(BadGuid(i)))
  {
    if i < |macs| {
      MatchesOwnAt(links, macs, mac, i);
    }
  }

  lemma NoneIsOwn(links: seq<RdmaLink>, macs: seq<Bytes>, mac: Bytes)
    requires IsMac(mac) && LinksOf(links, macs) && Reached(links, mac, |links|)
    ensures mac !in macs
  {
    forall k | 0 <= k < |macs|
      ensures macs[k] != mac
    {
      MatchesOwnAt(links, macs, mac, k);
      assert PassedOver(links[k], mac);
    }
  }

  // ---------- The SMC-R network id ----------

  /** strings.ToUpper on the letters a printed address is made of. */
  function Upper(s: string): string {
    seq(|s|, k requires 0 <= k < |s| => UpperChar(s[k]))
  }

  function UpperChar(c: char): char {
    if 'a' <= c <= 'z' then c - 'a' + 'A' else c
  }

  /** strings.ReplaceAll(s, ":", ""). */
  function WithoutColons(s: string): string {
    if s == "" then "" else (if s[0] == ':' then "" else [s[0]]) + WithoutColons(s[1..])
  }

  function PNetIDOf(mac: string): string {
    WithoutColons(Upper(mac))
  }

  lemma {:induction false} UpperJoins(s: string, t: string)
    ensures PNetIDOf(s + t) == PNetIDOf(s) + PNetIDOf(t)
  {
    if s == "" {
      assert s + t == t;
    } else {
      UpperJoins(s[1..], t);
      assert Upper(s + t)[1..] == Upper(s[1..] + t);
      assert Upper(s)[1..] == Upper(s[1..]);
      assert s + t == [s[0]] + (s[1..] + t);
    }
  }

  function UpperPair(b: bv8): (s: string)
    ensures |s| == 2
  {
    Upper(HexPair(b))
  }

  lemma UpperDigitFacts(n: nat)
    requires n < 16
    ensures var c := UpperChar(DIGITS[n]);
      c != ':' && HexDigit(c) == Some(n) && ('0' <= c <= '9' || 'A' <= c <= 'F')
  {
  }

  lemma NoColonsInTwo(s: string)
    requires |s| == 2 && s[0] != ':' && s[1] != ':'
    ensures s == [s[0], s[1]] && WithoutColons(s) == s
  {
    assert WithoutColons(s[1..]) == [s[1]] + WithoutColons(s[1..][1..]);
  }

  lemma UpperPairParses(b: bv8)
    ensures ParseByte(UpperPair(b)) == Some(b)
    ensures PNetIDOf(HexPair(b)) == UpperPair(b)
  {
    UpperDigitFacts(b as int / 16);
    UpperDigitFacts(b as int % 16);
    var s := UpperPair(b);
    NoColonsInTwo(s);
    TwoDigits(b as int, s[0], s[1]);
  }

  lemma PNetIDHead(addr: Bytes)
    requires addr != []
    ensures PNetIDOf(Render(addr)) == UpperPair(addr[0]) + PNetIDOf(Render(addr[1..]))
  {
    UpperPairParses(addr[0]);
    if |addr| > 1 {
      assert Pairs(addr)[1..] == Pairs(addr[1..]);
      UpperJoins(HexPair(addr[0]) + ":", Render(addr[1..]));
      UpperJoins(HexPair(addr[0]), ":");
      assert Upper(":") == ":" && WithoutColons(":"[1..]) == "";
    } else {
      assert Render(addr) == HexPair(addr[0]);
      assert addr[1..] == [];
    }
  }

  /** The id of a printed address: two characters for each byte, digits or capital letters A to F. */
  lemma {:induction false} PNetIDShape(addr: Bytes)
    ensures |PNetIDOf(Render(addr))| == 2 * |addr|
    ensures forall c :: c in PNetIDOf(Render(addr)) ==> '0' <= c <= '9' || 'A' <= c <= 'F'
  {
    if addr != [] {
      PNetIDHead(addr);
      PNetIDShape(addr[1..]);
      UpperDigitFacts(addr[0] as int / 16);
      UpperDigitFacts(addr[0] as int % 16);
    }
  }

  /** Two devices share an SMC-R network id only if they share the MAC. */
  lemma {:induction false} PNetIDNamesOneMac(a: Bytes, b: Bytes)
    ensures PNetIDOf(Render(a)) == PNetIDOf(Render(b)) <==> a == b
  {
    if a != [] { PNetIDHead(a); }
    if b != [] { PNetIDHead(b); }
    if a != [] && b != [] && PNetIDOf(Render(a)) == PNetIDOf(Render(b)) {
      var s := PNetIDOf(Render(a));
      assert s[..2] == UpperPair(a[0]) == UpperPair(b[0]);
      assert s[2..] == PNetIDOf(Render(a[1..])) == PNetIDOf(Render(b[1..]));
      UpperPairParses(a[0]);
      UpperPairParses(b[0]);
      PNetIDNamesOneMac(a[1..], b[1..]);
      assert a == [a[0]] + a[1..] && b == [b[0]] + b[1..];
    }
  }
}
