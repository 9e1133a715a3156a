/**
 AMD KDS URLs: the printer of the URLs AMD publishes VCEKs and CRLs at, and
 the reader a cache uses to find out which piece a URL names. The reader is
 lenient (signs, upper-case hex, any order of the parts), so what it read is
 printed again and compared.
 */
module Kds {
  import opened Prelude

  datatype Generation = Milan | Genoa | Turin
  datatype AmdKey = KeyVcek | KeyVlek

  type ChipId = c: Bytes | |c| == 64 witness Zeros(64)

  datatype Tcb = Tcb(bootloader: Byte, tee: Byte, snp: Byte, microcode: Byte, fmc: Option<Byte>)

  datatype VcekId = VcekId(generation: Generation, chipId: ChipId, tcb: Tcb)

  // ------------------------------------------------------------- hex and decimal

  function HexDigit(n: nat): char
    requires n < 16
  {
    if n < 10 then (n + 48) as char else (n + 87) as char
  }

  function HexValue(c: char): (v: Option<nat>)
    ensures v.Some? ==> v.value < 16
  {
    if '0' <= c <= '9' then Some(c as int - 48)
    else if 'a' <= c <= 'f' then Some(c as int - 87)
    else if 'A' <= c <= 'F' then Some(c as int - 55)
    else None
  }

  lemma {:induction false} HexDigitIsRead(n: nat)
    requires n < 16
    ensures HexValue(HexDigit(n)) == Some(n) && HexDigit(n) !in {'/', '?', '&'}
  {}

  function HexByte(b: Byte): string {
    [HexDigit(b as int / 16), HexDigit(b as int % 16)]
  }

  function HexEncode(b: Bytes): (s: string)
    ensures '/' !in s && '?' !in s
  {
    if b == [] then "" else
      HexDigitIsRead(b[0] as int / 16);
      HexDigitIsRead(b[0] as int % 16);
      HexByte(b[0]) + HexEncode(b[1..])
  }

  function HexDecode(s: string): Option<Bytes> {
    if s == "" then Some([])
    else if |s| == 1 then None
    else
      match (HexValue(s[0]), HexValue(s[1]), HexDecode(s[2..]))
      case (Some(h), Some(l), Some(rest)) => Some([16 * h + l] + rest)
      case _ => None
  }

  /** Capital hex digits as small ones. */
  function Lowered(s: string): (t: string)
    ensures |t| == |s| && forall i :: 0 <= i < |s| ==> t[i] == if 'A' <= s[i] <= 'F' then s[i] + ' ' else s[i]
  {
    seq(|s|, i requires 0 <= i < |s| => if 'A' <= s[i] <= 'F' then s[i] + ' ' else s[i])
  }

  lemma {:induction false} HexDigitMeans(c: char, n: nat)
    requires n < 16
    ensures HexValue(c) == Some(n) <==> Lowered([c]) == ["0123456789abcdef"[n]]
    ensures HexDigit(n) == "0123456789abcdef"[n]
  {}

  /** Hex is written with small letters, and read exactly when it is what is written but for the case of letters. */
  lemma {:induction false} HexIsRead(s: string, b: Bytes)
    ensures HexDecode(s) == Some(b) <==> Lowered(s) == HexEncode(b)
  {
    HexLength(b);
    if |s| >= 2 && b != [] {
      HexIsRead(s[2..], b[1..]);
      hide HexDecode, HexEncode;
      FirstPair(s, b);
      var digits := HexByte(b[0]);
      assert Lowered(s) == Lowered(s[..2]) + Lowered(s[2..]);
      if Lowered(s) == digits + HexEncode(b[1..]) {
        ConcatSplit(Lowered(s[..2]), Lowered(s[2..]), digits, HexEncode(b[1..]));
      }
    }
  }

  predicate PairIs(c: char, d: char, v: Byte) {
    HexValue(c) == Some(v as int / 16) && HexValue(d) == Some(v as int % 16)
  }

  lemma {:induction false} PairMeans(pair: string, v: Byte)
    requires |pair| == 2
    ensures PairIs(pair[0], pair[1], v) <==> Lowered(pair) == HexByte(v)
  {
    hide HexValue, HexDigit;
    HexDigitMeans(pair[0], v as int / 16);
    HexDigitMeans(pair[1], v as int % 16);
    assert Lowered(pair) == Lowered([pair[0]]) + Lowered([pair[1]]);
  }

  lemma {:induction false} DecodesAs(s: string, b: Bytes)
    requires |s| >= 2 && b != []
    ensures HexDecode(s) == Some(b) <==> PairIs(s[0], s[1], b[0]) && HexDecode(s[2..]) == Some(b[1..])
  {
    hide HexValue;
    assert b == [b[0]] + b[1..];
    if HexDecode(s) == Some(b) {
      var (h, l) := (HexValue(s[0]).value, HexValue(s[1]).value);
      assert ([16 * h + l] + HexDecode(s[2..]).value)[1..] == HexDecode(s[2..]).value;
    }
  }

  lemma {:induction false} FirstPair(s: string, b: Bytes)
    requires |s| >= 2 && b != []
    ensures HexEncode(b) == HexByte(b[0]) + HexEncode(b[1..])
    ensures HexDecode(s) == Some(b) <==> Lowered(s[..2]) == HexByte(b[0]) && HexDecode(s[2..]) == Some(b[1..])
  {
    hide HexValue, HexDigit, HexDecode, HexByte, PairIs, Lowered;
    PairMeans(s[..2], b[0]);
    DecodesAs(s, b);
  }

  lemma {:induction false} HexLength(b: Bytes)
    ensures |HexEncode(b)| == 2 * |b|
  {
    if b != [] {
      HexLength(b[1..]);
    }
  }

  lemma {:induction false} HexRoundTrip(b: Bytes)
    ensures HexDecode(HexEncode(b)) == Some(b)
  {
    if b != [] {
      var h, l := b[0] as int / 16, b[0] as int % 16;
      HexRoundTrip(b[1..]);
      HexDigitIsRead(h);
      HexDigitIsRead(l);
      assert HexEncode(b)[2..] == HexEncode(b[1..]);
      assert 16 * h + l == b[0] as int;
      assert b == [b[0]] + b[1..];
    }
  }

  function Digit(n: nat): char
    requires n < 10
  {
    (n + 48) as char
  }

  /** At least two digits. */
  function Decimal(n: Byte): string {
    var low := [Digit(n as int / 10 % 10), Digit(n as int % 10)];
    if n < 100 then low else [Digit(n as int / 100)] + low
  }

  function ParseDigits(s: string): Option<nat> {
    if s == "" then Some(0)
    else
      var last := s[|s| - 1];
      match ParseDigits(s[..|s| - 1])
      case None => None
      case Some(n) => if '0' <= last <= '9' then Some(10 * n + (last as int - 48)) else None
  }

  /** A decimal byte as the standard library reads it: a leading `+` and leading zeros are fine. */
  function ParseByte(s: string): Option<Byte> {
    var digits := if |s| > 1 && s[0] == '+' then s[1..] else s;
    match ParseDigits(digits)
    case Some(n) => if digits != "" && n < 256 then Some(n) else None
    case None => None
  }

  lemma {:induction false} ParseLast(s: string, d: nat)
    requires d < 10
    ensures ParseDigits(s + [Digit(d)]) == match ParseDigits(s) case Some(n) => Some(10 * n + d) case None => None
  {}

  lemma {:induction false} DecimalDigits(n: Byte) returns (h: nat, t: nat, o: nat)
    ensures n as int == 100 * h + 10 * t + o && h < 10 && t < 10 && o < 10 && (h == 0 <==> n < 100)
    ensures Decimal(n) == (if h == 0 then "" else [Digit(h)]) + [Digit(t)] + [Digit(o)]
  {
    h, t, o := n as int / 100, n as int / 10 % 10, n as int % 10;
  }

  lemma {:induction false} DecimalIsRead(n: Byte)
    ensures ParseByte(Decimal(n)) == Some(n) && '&' !in Decimal(n)
  {
    var h, t, o := DecimalDigits(n);
    var head := if h == 0 then "" else [Digit(h)];
    if h > 0 {
      ParseLast("", h);
      assert "" + [Digit(h)] == head;
    }
    ParseLast(head, t);
    ParseLast(head + [Digit(t)], o);
  }

  /** A number without leading zeros. */
  function Plain(n: nat): string {
    (if n < 10 then "" else Plain(n / 10)) + [Digit(n % 10)]
  }

  function Repeated(c: char, k: nat): string {
    seq(k, _ => c)
  }

  lemma {:induction false} PlainIsParsed(k: nat, n: nat)
    ensures ParseDigits(Repeated('0', k) + Plain(n)) == Some(n)
  {
    if n < 10 {
      ZerosAreParsed(k);
      ParseLast(Repeated('0', k), n);
    } else {
      PlainIsParsed(k, n / 10);
      ParseLast(Repeated('0', k) + Plain(n / 10), n % 10);
      assert Repeated('0', k) + Plain(n) == Repeated('0', k) + Plain(n / 10) + [Digit(n % 10)];
    }
  }

  lemma {:induction false} ZerosAreParsed(k: nat)
    ensures ParseDigits(Repeated('0', k)) == Some(0)
  {
    if k > 0 {
      ZerosAreParsed(k - 1);
      assert Repeated('0', k) == Repeated('0', k - 1) + [Digit(0)];
      ParseLast(Repeated('0', k - 1), 0);
    }
  }

  lemma {:induction false} ParsedIsPlain(s: string) returns (k: nat)
    requires s != "" && ParseDigits(s).Some?
    ensures s == Repeated('0', k) + Plain(ParseDigits(s).value)
  {
    var (head, n) := (s[..|s| - 1], ParseDigits(s).value);
    assert s == head + [Digit(n % 10)];
    if head == "" {
      k := 0;
    } else {
      k := ParsedIsPlain(head);
      assert n / 10 == ParseDigits(head).value;
      if n < 10 {
        assert Plain(0) == ['0'] && Repeated('0', k) + ['0'] == Repeated('0', k + 1);
        k := k + 1;
      }
    }
  }

  /** Read as a byte: the number, with any zeros before it and a plus sign before those. */
  lemma {:induction false} ByteIsRead(s: string, n: Byte)
    ensures ParseByte(s) == Some(n)
       <==> exists k :: s == Repeated('0', k) + Plain(n) || s == "+" + (Repeated('0', k) + Plain(n))
  {
    hide ParseDigits, Plain;
    if ParseByte(s) == Some(n) {
      var digits := if |s| > 1 && s[0] == '+' then s[1..] else s;
      var k := ParsedIsPlain(digits);
      assert s == digits || s == "+" + digits;
    }
    forall k | s == Repeated('0', k) + Plain(n) || s == "+" + (Repeated('0', k) + Plain(n)) ensures ParseByte(s) == Some(n) {
      PlainIsParsed(k, n);
      NoSign(k, n);
    }
  }

  lemma {:induction false} NoSign(k: nat, n: nat)
    ensures var s := Repeated('0', k) + Plain(n); s != "" && s[0] != '+'
  {
    if k == 0 && n >= 10 {
      NoSign(0, n / 10);
      assert Repeated('0', 0) + Plain(n / 10) == Plain(n / 10);
    }
  }

  // ------------------------------------------------------------- cutting strings

  function StripPrefix(s: string, prefix: string): Option<string> {
    if prefix <= s then Some(s[|prefix|..]) else None
  }

  function SplitOnce(s: string, c: char): Option<(string, string)> {
    if s == "" then None
    else if s[0] == c then Some(("", s[1..]))
    else match SplitOnce(s[1..], c)
      case None => None
      case Some((before, after)) => Some(([s[0]] + before, after))
  }

  function Split(s: string, c: char): (parts: seq<string>)
    ensures parts != []
    decreases |s|
  {
    match SplitOnce(s, c)
    case None => [s]
    case Some((before, after)) => SplitShorter(s, c); [before] + Split(after, c)
  }

  lemma {:induction false} SplitShorter(s: string, c: char)
    ensures SplitOnce(s, c).Some? ==> |SplitOnce(s, c).value.1| < |s|
  {
    if s != "" && s[0] != c {
      SplitShorter(s[1..], c);
    }
  }

  lemma {:induction false} SplitOnceAt(before: string, c: char, after: string)
    requires c !in before
    ensures SplitOnce(before + [c] + after, c) == Some((before, after))
  {
    var s := before + [c] + after;
    if before != "" {
      SplitOnceAt(before[1..], c, after);
      assert s[1..] == before[1..] + [c] + after;
      assert s[0] == before[0] && before == [before[0]] + before[1..];
    }
  }

  lemma {:induction false} SplitOnceNone(s: string, c: char)
    requires c !in s
    ensures SplitOnce(s, c) == None
  {
    if s != "" {
      SplitOnceNone(s[1..], c);
    }
  }

  function Join(parts: seq<string>): string
    requires parts != []
  {
    if |parts| == 1 then parts[0] else parts[0] + ['&'] + Join(parts[1..])
  }

  lemma {:induction false} SplitJoined(parts: seq<string>)
    requires parts != [] && forall i :: 0 <= i < |parts| ==> '&' !in parts[i]
    ensures Split(Join(parts), '&') == parts
  {
    if |parts| == 1 {
      SplitOnceNone(parts[0], '&');
    } else {
      SplitJoined(parts[1..]);
      SplitOnceAt(parts[0], '&', Join(parts[1..]));
      assert parts == [parts[0]] + parts[1..];
    }
  }

  // ------------------------------------------------------------------- the URLs

  const KDS := "https://kdsintf.amd.com/"
  const VCEK_PATH := "https://kdsintf.amd.com/vcek/v1/"

  function ProductName(g: Generation): (s: string)
    ensures '/' !in s
  {
    match g
    case Milan => "Milan"
    case Genoa => "Genoa"
    case Turin => "Turin"
  }

  function Spl(name: string, n: Byte): string {
    name + "=" + Decimal(n)
  }

  function TcbParts(t: Tcb): (parts: seq<string>)
    ensures parts != []
  {
    [Spl("blSPL", t.bootloader), Spl("teeSPL", t.tee), Spl("snpSPL", t.snp), Spl("ucodeSPL", t.microcode)]
    + if t.fmc.Some? then [Spl("fmcSPL", t.fmc.value)] else []
  }

  /** Turin chips are looked up by the first 8 bytes. */
  function NamedChip(id: VcekId): Bytes {
    if id.generation.Turin? then id.chipId[..8] else id.chipId
  }

  function VcekUrl(id: VcekId): string {
    VCEK_PATH + (ProductName(id.generation) + ['/'] + (HexEncode(NamedChip(id)) + ['?'] + Join(TcbParts(id.tcb))))
  }

  function CrlUrl(g: Generation, key: AmdKey): string {
    KDS + (if key.KeyVcek? then "vcek" else "vlek") + "/v1/" + ProductName(g) + "/crl"
  }

  // ------------------------------------------------------------------- the reader

  function GenerationNamed(name: string): Option<Generation> {
    if name == "Milan" then Some(Milan)
    else if name == "Genoa" then Some(Genoa)
    else if name == "Turin" then Some(Turin)
    else None
  }

  /** The text of the first part `name=…`. */
  function FirstNamed(parts: seq<string>, name: string): Option<string> {
    if parts == [] then None
    else
      match StripPrefix(parts[0], name + "=")
      case Some(v) => Some(v)
      case None => FirstNamed(parts[1..], name)
  }

  /** The `i`-th part is the first that begins with `name=`. */
  predicate IsFirstNamed(parts: seq<string>, name: string, i: int) {
    0 <= i < |parts| && name + "=" <= parts[i] && forall j :: 0 <= j < i ==> !(name + "=" <= parts[j])
  }

  /** Of several parts with one name the first counts, even when nothing follows the equals sign. */
  lemma {:induction false} FirstNamedMeans(parts: seq<string>, name: string, v: string)
    ensures FirstNamed(parts, name) == Some(v) <==> exists i :: IsFirstNamed(parts, name, i) && parts[i] == name + "=" + v
  {
    if parts != [] && name + "=" <= parts[0] {
      assert parts[0] == name + "=" + parts[0][|name + "="|..];
      assert IsFirstNamed(parts, name, 0);
    } else if parts != [] {
      FirstNamedMeans(parts[1..], name, v);
      if i :| IsFirstNamed(parts[1..], name, i) && parts[1..][i] == name + "=" + v {
        assert IsFirstNamed(parts, name, i + 1);
      }
      if i :| IsFirstNamed(parts, name, i) && parts[i] == name + "=" + v {
        assert parts[1..][i - 1] == parts[i] && forall j :: 0 <= j < i - 1 ==> parts[1..][j] == parts[j + 1];
        assert IsFirstNamed(parts[1..], name, i - 1);
      }
    }
  }

  function ReadSpl(parts: seq<string>, name: string): Option<Byte> {
    var v :- FirstNamed(parts, name);
    ParseByte(v)
  }

  function ReadTcb(parts: seq<string>): Option<Tcb> {
    var bootloader :- ReadSpl(parts, "blSPL");
    var tee :- ReadSpl(parts, "teeSPL");
    var snp :- ReadSpl(parts, "snpSPL");
    var microcode :- ReadSpl(parts, "ucodeSPL");
    Some(Tcb(bootloader, tee, snp, microcode, ReadSpl(parts, "fmcSPL")))
  }

  function Padded(chip: Bytes): ChipId
    requires |chip| <= 64
  {
    chip + Zeros(64 - |chip|)
  }

  function ReadVcek(url: string): Option<VcekId> {
    var rest :- StripPrefix(url, VCEK_PATH);
    var (name, tail) :- SplitOnce(rest, '/');
    var (hex, query) :- SplitOnce(tail, '?');
    var generation :- GenerationNamed(name);
    var chip :- HexDecode(hex);
    if |chip| > 64 then
      None
    else
      var tcb :- ReadTcb(Split(query, '&'));
      Some(VcekId(generation, Padded(chip), tcb))
  }

  // ------------------------------------------------------- printed, then read

  lemma {:induction false} SplIsRead(name: string, n: Byte, parts: seq<string>)
    requires parts != [] && parts[0] == Spl(name, n)
    ensures ReadSpl(parts, name) == Some(n)
  {
    DecimalIsRead(n);
    assert Spl(name, n)[|name + "="|..] == Decimal(n);
  }

  lemma {:induction false} OtherSplIsSkipped(name: string, other: string, n: Byte, parts: seq<string>)
    requires parts != [] && parts[0] == Spl(other, n) && name != "" && other != "" && name[0] != other[0]
    ensures ReadSpl(parts, name) == ReadSpl(parts[1..], name)
  {
    assert (name + "=")[0] != Spl(other, n)[0];
  }

  lemma {:induction false} TcbIsRead(t: Tcb)
    ensures ReadTcb(TcbParts(t)) == Some(t)
  {
    hide ReadSpl, Spl;
    var parts := TcbParts(t);
    SplIsRead("blSPL", t.bootloader, parts);
    OtherSplIsSkipped("teeSPL", "blSPL", t.bootloader, parts);
    OtherSplIsSkipped("snpSPL", "blSPL", t.bootloader, parts);
    OtherSplIsSkipped("ucodeSPL", "blSPL", t.bootloader, parts);
    OtherSplIsSkipped("fmcSPL", "blSPL", t.bootloader, parts);
    SplIsRead("teeSPL", t.tee, parts[1..]);
    OtherSplIsSkipped("snpSPL", "teeSPL", t.tee, parts[1..]);
    OtherSplIsSkipped("ucodeSPL", "teeSPL", t.tee, parts[1..]);
    OtherSplIsSkipped("fmcSPL", "teeSPL", t.tee, parts[1..]);
    SplIsRead("snpSPL", t.snp, parts[1..][1..]);
    OtherSplIsSkipped("ucodeSPL", "snpSPL", t.snp, parts[1..][1..]);
    OtherSplIsSkipped("fmcSPL", "snpSPL", t.snp, parts[1..][1..]);
    SplIsRead("ucodeSPL", t.microcode, parts[1..][1..][1..]);
    OtherSplIsSkipped("fmcSPL", "ucodeSPL", t.microcode, parts[1..][1..][1..]);
    if t.fmc.Some? {
      SplIsRead("fmcSPL", t.fmc.value, parts[1..][1..][1..][1..]);
    } else {
      assert parts[1..][1..][1..][1..] == [];
      NoPartsNoSpl("fmcSPL");
    }
  }

  lemma {:induction false} NoPartsNoSpl(name: string)
    ensures ReadSpl([], name) == None
  {}

  lemma {:induction false} TcbPartsAreWhole(t: Tcb)
    ensures forall i :: 0 <= i < |TcbParts(t)| ==> '&' !in TcbParts(t)[i]
  {
    DecimalIsRead(t.bootloader);
    DecimalIsRead(t.tee);
    DecimalIsRead(t.snp);
    DecimalIsRead(t.microcode);
    if t.fmc.Some? {
      DecimalIsRead(t.fmc.value);
    }
  }

  /** The id with the bytes of CHIP_ID its URL does not carry set to zero. */
  function Named(id: VcekId): VcekId {
    id.(chipId := Padded(NamedChip(id)))
  }

  lemma {:induction false} NamedKeepsMilanAndGenoa(id: VcekId)
    ensures !id.generation.Turin? ==> Named(id) == id
    ensures id.generation.Turin? ==> Named(id).chipId == id.chipId[..8] + Zeros(56)
    ensures VcekUrl(Named(id)) == VcekUrl(id)
  {
    assert NamedChip(Named(id)) == NamedChip(id);
    if !id.generation.Turin? {
      assert Padded(id.chipId) == id.chipId;
    }
  }

  /** The reader gives back what was printed: exactly the id, a Turin CHIP_ID cut to 8 bytes and padded. */
  lemma {:induction false} UrlIsRead(id: VcekId)
    ensures ReadVcek(VcekUrl(id)) == Some(Named(id))
  {
    hide HexEncode, HexDecode, Join, TcbParts, ReadTcb, Split, SplitOnce, ProductName;
    var query := Join(TcbParts(id.tcb));
    var hex := HexEncode(NamedChip(id));
    var tail := hex + ['?'] + query;
    var rest := ProductName(id.generation) + ['/'] + tail;
    assert StripPrefix(VCEK_PATH + rest, VCEK_PATH) == Some(rest);
    SplitOnceAt(ProductName(id.generation), '/', tail);
    SplitOnceAt(hex, '?', query);
    HexRoundTrip(NamedChip(id));
    NameIsRead(id.generation);
    TcbPartsAreWhole(id.tcb);
    QueryIsRead(id.tcb);
  }

  lemma {:induction false} NameIsRead(g: Generation)
    ensures GenerationNamed(ProductName(g)) == Some(g)
  {}

  lemma {:induction false} QueryIsRead(t: Tcb)
    ensures ReadTcb(Split(Join(TcbParts(t)), '&')) == Some(t)
  {
    TcbPartsAreWhole(t);
    SplitJoined(TcbParts(t));
    TcbIsRead(t);
  }

  /** Two ids share a URL exactly when they differ in nothing but the last 56 bytes of a Turin CHIP_ID. */
  lemma {:induction false} SharedUrl(a: VcekId, b: VcekId)
    ensures VcekUrl(a) == VcekUrl(b) <==> Named(a) == Named(b)
  {
    hide VcekUrl, ReadVcek, Named;
    UrlIsRead(a);
    UrlIsRead(b);
    NamedKeepsMilanAndGenoa(a);
    NamedKeepsMilanAndGenoa(b);
  }

  // ------------------------------------------------------------------- dispatch

  datatype AmdPiece = Crl(generation: Generation, key: AmdKey) | Vcek(id: VcekId)

  function UrlOf(piece: AmdPiece): string {
    match piece
    case Crl(g, key) => CrlUrl(g, key)
    case Vcek(id) => VcekUrl(id)
  }

  function CrlAt(url: string): Option<AmdPiece> {
    if url == CrlUrl(Milan, KeyVcek) then Some(Crl(Milan, KeyVcek))
    else if url == CrlUrl(Milan, KeyVlek) then Some(Crl(Milan, KeyVlek))
    else if url == CrlUrl(Genoa, KeyVcek) then Some(Crl(Genoa, KeyVcek))
    else if url == CrlUrl(Genoa, KeyVlek) then Some(Crl(Genoa, KeyVlek))
    else if url == CrlUrl(Turin, KeyVcek) then Some(Crl(Turin, KeyVcek))
    else if url == CrlUrl(Turin, KeyVlek) then Some(Crl(Turin, KeyVlek))
    else None
  }

  /** The AMD piece a cache serves at `url`. */
  function PieceAt(url: string): Option<AmdPiece> {
    match CrlAt(url)
    case Some(piece) => Some(piece)
    case None =>
      var id :- ReadVcek(url);
      if VcekUrl(id) == url then Some(Vcek(id)) else None
  }

  lemma {:induction false} CrlMarks(g: Generation, key: AmdKey)
    ensures |CrlUrl(g, key)| > 32
    ensures CrlUrl(g, key)[25] == (if key.KeyVcek? then 'c' else 'l')
    ensures CrlUrl(g, key)[32] == match g case Milan => 'M' case Genoa => 'G' case Turin => 'T'
  {}

  lemma {:induction false} CrlUrlsDiffer(g: Generation, key: AmdKey, g': Generation, key': AmdKey)
    ensures CrlUrl(g, key) == CrlUrl(g', key') ==> g == g' && key == key'
  {
    CrlMarks(g, key);
    CrlMarks(g', key');
  }

  lemma {:induction false} CrlIsAtItsUrl(g: Generation, key: AmdKey)
    ensures CrlAt(CrlUrl(g, key)) == Some(Crl(g, key))
  {
    hide CrlUrl;
    forall g', key' ensures CrlUrl(g, key) == CrlUrl(g', key') ==> g == g' && key == key' {
      CrlUrlsDiffer(g, key, g', key');
    }
  }

  /** No CRL URL is read as a VCEK. */
  lemma {:induction false} CrlIsNoVcek(g: Generation, key: AmdKey)
    ensures ReadVcek(CrlUrl(g, key)) == None
  {
    var name := ProductName(g);
    if key.KeyVcek? {
      assert CrlUrl(g, key) == VCEK_PATH + (name + ['/'] + "crl");
      assert StripPrefix(CrlUrl(g, key), VCEK_PATH) == Some(name + ['/'] + "crl");
      SplitOnceAt(name, '/', "crl");
      SplitOnceNone("crl", '?');
    } else {
      CrlMarks(g, key);
      assert VCEK_PATH[25] == 'c';
    }
  }

  /** A cache serves an AMD piece at exactly the URLs some piece is published at, and serves that piece. */
  lemma {:induction false} ServedExactlyWhatIsPublished(url: string, piece: AmdPiece)
    ensures PieceAt(url) == Some(piece) ==> UrlOf(piece) == url
    ensures UrlOf(piece) == url ==> PieceAt(url) == Some(if piece.Vcek? then Vcek(Named(piece.id)) else piece)
  {
    hide CrlUrl, VcekUrl, ReadVcek, Named;
    match piece {
      case Crl(g, key) => CrlIsAtItsUrl(g, key);
      case Vcek(id) =>
        UrlIsRead(id);
        NamedKeepsMilanAndGenoa(id);
        forall g, key ensures CrlUrl(g, key) != VcekUrl(id) {
          CrlIsNoVcek(g, key);
        }
    }
  }

  /** A URL no piece is printed as is served as none, even one the reader understands. */
  lemma {:induction false} OnlyPrintedUrlsAreServed(url: string)
    ensures PieceAt(url).Some? <==> exists piece :: UrlOf(piece) == url
  {
    hide UrlOf, Named;
    if PieceAt(url).Some? {
      ServedExactlyWhatIsPublished(url, PieceAt(url).value);
    }
    forall piece | UrlOf(piece) == url ensures PieceAt(url).Some? {
      ServedExactlyWhatIsPublished(url, piece);
    }
  }
}
