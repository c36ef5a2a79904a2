/** The test-vector generator for the tile-hash hardware: the fixed tiles and
    their expected fingerprints, the VRAM write script for one tile, and the
    fixed-width test names of the generated Verilog include. */
module TestVectors {
  import opened Wrappers
  import Crc16
  import Hex
  import TileHashes

  /** A tile-hash test vector: a named tile and the fingerprint the hardware
      must produce for it. */
  datatype TileTestVector = TileTestVector(name: string, tileData: seq<bv8>, expectedHash: Crc16.Word)
  {
    /** The tile as a hexadecimal literal for `$readmemh` and `128'h...`:
        two upper-case digits per byte, which decode back to the tile. */
    function ToHexString(): (s: string)
      ensures |s| == 2 * |tileData|
      ensures Hex.FromHexString(s) == Some(tileData)
    {
      Hex.DecodeEncode(tileData);
      Hex.ToHexString(tileData)
    }
  }

  /** Python's `s[:n]`: the first `n` elements, or all of `s` if it is shorter. */
  function Prefix<T>(s: seq<T>, n: nat): (r: seq<T>)
    ensures |r| == if |s| <= n then |s| else n
    ensures r == s[..|r|]
  {
    if |s| <= n then s else s[..n]
  }

  /** `n` space characters. */
  function Spaces(n: nat): (r: string)
    ensures |r| == n
    ensures forall k :: 0 <= k < n ==> r[k] == ' '
  {
    seq(n, _ => ' ')
  }

  /** Python's `s.ljust(width)` with the default fill: `s` itself if it is at
      least `width` long, otherwise `s` followed by spaces up to `width`. */
  function LJust(s: string, width: nat): (r: string)
    ensures |r| == if |s| >= width then |s| else width
    ensures r[..|s|] == s
    ensures forall k :: |s| <= k < |r| ==> r[k] == ' '
  {
    if |s| >= width then s else s + Spaces(width - |s|)
  }

  /** Width, in characters, of a test name in the Verilog include: the name
      function returns a 128-bit string, 16 eight-bit characters. */
  const NameWidth: nat := 16

  /** A test name padded with spaces, or cut, to exactly 16 characters. */
  function PadName(name: string): (r: string)
    ensures |r| == NameWidth
    ensures forall k :: 0 <= k < NameWidth ==> r[k] == if k < |name| then name[k] else ' '
  {
    Prefix(LJust(name, NameWidth), NameWidth)
  }

  /** Drops trailing spaces. */
  function TrimRight(s: string): (r: string)
    decreases |s|
  {
    if s != [] && s[|s| - 1] == ' ' then TrimRight(s[..|s| - 1]) else s
  }

  /** A name that does not end in a space survives any amount of padding. */
  lemma {:induction false} TrimSpaces(name: string, n: nat)
    requires name == [] || name[|name| - 1] != ' '
    ensures TrimRight(name + Spaces(n)) == name
    decreases n
  {
    if n > 0 {
      var padded := name + Spaces(n);
      assert padded[..|padded| - 1] == name + Spaces(n - 1);
      TrimSpaces(name, n - 1);
    }
  }

  /** A name of at most 16 characters with no trailing space is recovered from
      its padded form by dropping the trailing spaces. */
  lemma PadNameRoundTrip(name: string)
    requires |name| <= NameWidth
    requires name == [] || name[|name| - 1] != ' '
    ensures TrimRight(PadName(name)) == name
  {
    assert PadName(name) == name + Spaces(NameWidth - |name|);
    TrimSpaces(name, NameWidth - |name|);
  }

  /** Distinct names of at most 16 characters with no trailing space get
      distinct padded names. */
  lemma PadNameInjective(a: string, b: string)
    requires |a| <= NameWidth && (a == [] || a[|a| - 1] != ' ')
    requires |b| <= NameWidth && (b == [] || b[|b| - 1] != ' ')
    requires a != b
    ensures PadName(a) != PadName(b)
  {
    PadNameRoundTrip(a);
    PadNameRoundTrip(b);
  }

  /** The fallback name of the Verilog name function is the padded form of
      "unknown". */
  lemma DefaultName()
    ensures PadName("unknown") == "unknown         "
  {
  }

  /** The names of the eight tile-hash test vectors, in order. */
  const TestNames: seq<string> := ["all_zeros", "all_ones", "sequential", "alternating",
    "filled_square", "letter_a", "pseudo_random", "single_bit"]

  /** The tile of test vector `i`. The seventh tile is the first 16 bytes of
      an MD5 digest, which the model takes as the parameter `digest`. */
  function TileData(i: nat, digest: seq<bv8>): seq<bv8>
    requires i < |TestNames|
  {
    match i
    case 0 => [0x00, 0x00, 0x00, 0x00, 0x00, 0x00, 0x00, 0x00,
               0x00, 0x00, 0x00, 0x00, 0x00, 0x00, 0x00, 0x00]
    case 1 => [0xFF, 0xFF, 0xFF, 0xFF, 0xFF, 0xFF, 0xFF, 0xFF,
               0xFF, 0xFF, 0xFF, 0xFF, 0xFF, 0xFF, 0xFF, 0xFF]
    case 2 => [0x00, 0x01, 0x02, 0x03, 0x04, 0x05, 0x06, 0x07,
               0x08, 0x09, 0x0A, 0x0B, 0x0C, 0x0D, 0x0E, 0x0F]
    case 3 => [0xAA, 0x55, 0xAA, 0x55, 0xAA, 0x55, 0xAA, 0x55,
               0xAA, 0x55, 0xAA, 0x55, 0xAA, 0x55, 0xAA, 0x55]
    case 4 => [0xFF, 0xFF, 0xFF, 0xFF, 0xFF, 0xFF, 0xFF, 0xFF,
               0xFF, 0xFF, 0xFF, 0xFF, 0xFF, 0xFF, 0xFF, 0xFF]
    case 5 => [0x18, 0x00, 0x3C, 0x00, 0x66, 0x00, 0x66, 0x00,
               0x7E, 0x00, 0x66, 0x00, 0x66, 0x00, 0x00, 0x00]
    case 6 => Prefix(digest, 16)
    case _ => [0x80, 0x00, 0x00, 0x00, 0x00, 0x00, 0x00, 0x00,
               0x00, 0x00, 0x00, 0x00, 0x00, 0x00, 0x00, 0x00]
  }

  /** The eight tile-hash test vectors, in order: each holds its tile and, as
      expected hash, the fingerprint of that tile. Every tile is 16 bytes
      long once the digest is (an MD5 digest always is), and the seventh is
      the digest's first 16 bytes. */
  function GenerateTileTestVectors(digest: seq<bv8>): (vs: seq<TileTestVector>)
    ensures |vs| == |TestNames|
    ensures forall i :: 0 <= i < |vs| ==> vs[i].name == TestNames[i] && vs[i].tileData == TileData(i, digest)
    ensures forall i :: 0 <= i < |vs| ==> vs[i].expectedHash == Crc16.Fingerprint(vs[i].tileData)
    ensures |digest| >= 16 ==> forall i :: 0 <= i < |vs| ==> |vs[i].tileData| == 16
    ensures |digest| >= 16 ==> vs[6].tileData == digest[..16]
  {
    seq(|TestNames|, i requires 0 <= i < |TestNames| =>
      TileTestVector(TestNames[i], TileData(i, digest), Crc16.Fingerprint(TileData(i, digest))))
  }

  /** The expected hashes of the seven tiles that do not depend on the
      digest, as the expected-hash file lists them; `all_ones` and
      `filled_square` hold the same tile and so the same hash. */
  lemma ExpectedHashes(digest: seq<bv8>)
    ensures GenerateTileTestVectors(digest)[0].expectedHash == 0x6A0A
    ensures GenerateTileTestVectors(digest)[1].expectedHash == 0x6A4B
    ensures GenerateTileTestVectors(digest)[2].expectedHash == 0x3B37
    ensures GenerateTileTestVectors(digest)[3].expectedHash == 0x96A6
    ensures GenerateTileTestVectors(digest)[4].expectedHash == 0x6A4B
    ensures GenerateTileTestVectors(digest)[5].expectedHash == 0x17AA
    ensures GenerateTileTestVectors(digest)[7].expectedHash == 0x627B
  {
    TileHashes.FingerprintAllZeros();
    assert TileData(4, digest) == TileData(1, digest);
    TileHashes.FingerprintAllOnes();
    TileHashes.FingerprintSequential();
    TileHashes.FingerprintAlternating();
    TileHashes.FingerprintLetterA();
    TileHashes.FingerprintSingleBit();
  }

  /** Every tile is 16 bytes, so its hexadecimal form has the 32 digits of a
      128-bit Verilog literal; the digest tile is 16 bytes whenever the digest
      has at least 16. */
  lemma TileLengths(digest: seq<bv8>, i: nat)
    requires |digest| >= 16 && i < |TestNames|
    ensures |GenerateTileTestVectors(digest)[i].ToHexString()| == 32
  {
  }

  /** The test names fit the 16-character field and none ends in a space. */
  lemma TestNamesFit()
    ensures forall i :: 0 <= i < |TestNames| ==>
      |TestNames[i]| <= NameWidth && TestNames[i][|TestNames[i]| - 1] != ' '
  {
  }

  /** The padded test names are pairwise distinct, so every case of the
      Verilog name function is distinguishable. */
  lemma DistinctTestNames()
    ensures forall i, j :: 0 <= i < j < |TestNames| ==> PadName(TestNames[i]) != PadName(TestNames[j])
  {
    TestNamesFit();
    forall i, j | 0 <= i < j < |TestNames|
      ensures PadName(TestNames[i]) != PadName(TestNames[j])
    {
      PadNameInjective(TestNames[i], TestNames[j]);
    }
  }

  /** One event of the VRAM write script: address, data byte, write enable
      and a description. */
  datatype WriteEvent = WriteEvent(addr: nat, data: nat, we: nat, description: string)

  /** Bytes per tile. */
  const TileSize: nat := 16

  /** The index of the tile that a VRAM address falls in. */
  function TileIndex(addr: nat): (t: nat)
    ensures t * TileSize <= addr < (t + 1) * TileSize
  {
    addr / TileSize
  }

  /** The position of a VRAM address inside its tile. */
  function TileOffset(addr: nat): (o: nat)
    ensures o < TileSize && TileIndex(addr) * TileSize + o == addr
  {
    addr % TileSize
  }

  /** Whether `s` consists of decimal digits only. */
  predicate IsDecimal(s: string)
  {
    forall k :: 0 <= k < |s| ==> '0' <= s[k] <= '9'
  }

  /** The number a string of decimal digits denotes, most significant digit
      first. */
  function DigitsValue(s: string): nat
    requires IsDecimal(s)
  {
    if s == [] then 0 else DigitsValue(s[..|s| - 1]) * 10 + (s[|s| - 1] as int - '0' as int)
  }

  /** Decimal rendering of a natural number, as Python's `str` gives it:
      digits only, no leading zero (so "0" is the only rendering that starts
      with one). */
  function DecimalString(n: nat): (s: string)
    ensures |s| >= 1 && IsDecimal(s)
    ensures s[0] == '0' ==> n == 0 && s == "0"
  {
    var d := ['0' + ((n % 10) as char)];
    if n < 10 then d else DecimalString(n / 10) + d
  }

  /** The digits of `DecimalString(n)` denote `n`. */
  lemma {:induction false} DecimalStringValue(n: nat)
    ensures DigitsValue(DecimalString(n)) == n
  {
    var s := DecimalString(n);
    if n >= 10 {
      assert s[..|s| - 1] == DecimalString(n / 10);
      DecimalStringValue(n / 10);
    }
  }

  /** The description of the event writing byte `i`. */
  function WriteDescription(i: nat): string
  {
    "Write byte " + DecimalString(i) + " of tile"
  }

  /** The write script for one tile: bytes 0..15 written one by one, in
      order, to the sixteen addresses of tile 16 (from 0x0100). */
  method GenerateVramWriteVectors() returns (vectors: seq<WriteEvent>)
    ensures |vectors| == 16
    ensures forall i :: 0 <= i < |vectors| ==>
      vectors[i] == WriteEvent(0x0100 + i, i, 1, WriteDescription(i))
    ensures forall i :: 0 <= i < |vectors| ==>
      TileIndex(vectors[i].addr) == 16 && TileOffset(vectors[i].addr) == i
    ensures forall i, j :: 0 <= i < j < |vectors| ==> vectors[i].addr < vectors[j].addr
  {
    var tileData: seq<nat> := seq(16, i requires 0 <= i => i);
    var baseAddr := 0x0100;
    vectors := [];
    for i := 0 to |tileData|
      invariant |vectors| == i
      invariant forall k :: 0 <= k < i ==>
        vectors[k] == WriteEvent(baseAddr + k, tileData[k], 1, WriteDescription(k))
    {
      vectors := vectors + [WriteEvent(baseAddr + i, tileData[i], 1, WriteDescription(i))];
    }
  }
}
