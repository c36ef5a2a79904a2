# Tile fingerprint and test-vector generator, modelled in Dafny

This project models the reference side of the tile-hash hardware's test
bench, `src/tools/test_vectors.py`. It covers four pieces:

- **The tile fingerprint `crc16_ccitt`.** This is a bit-serial CRC-16 with generator 0x1021 (ITU-T V.41). It starts from 0xFFFF, processes bits most-significant first, and has no reflection and no final XOR: the parameter set catalogued as CRC-16/IBM-3740.
- **`TileTestVector.to_hex_string`.** It turns a tile into the hexadecimal literal that the Verilog test bench reads.
- **The eight tile test vectors.** Each one pairs a tile with its expected fingerprint.
- **The write script the VRAM snooper is driven with, and the name padding.** The padding fixes every test name at 16 characters in the generated Verilog include.

Files:

- `crc16.dfy` — module `Crc16`. It defines:
  - the CRC as a specification function `Crc`, built from a per-bit step `BitStep` and a per-byte step `ByteStep`;
  - the source's two nested loops as the method `Crc16Ccitt`, proved equal to `Crc`;
  - the streaming law and chunked-implementation agreement.

  Module `Crc16Residue` holds the residue property. Module `Crc16Vectors` holds concrete fingerprints: the catalogue check value and an order-sensitivity example.
- `tile_hashes.dfy` — module `TileHashes`. It evaluates the fingerprints of the six distinct fixed tiles byte by byte, each in two eight-byte halves joined by the streaming law.
- `hex.dfy` — module `Hex`. It defines:
  - the upper-case, two-digits-per-byte rendering;
  - a decoder, which is the rendering's partner;
  - round trips in both directions;
  - the positions of each byte's digits.

  Module `Wrappers` holds `Option`.
- `test_vectors.dfy` — module `TestVectors`. It defines:
  - the `TileTestVector` record and its `ToHexString`;
  - the eight vectors and their concrete expected hashes;
  - the VRAM write-script generator, a method with a loop;
  - Python's `ljust` and `[:n]` as functions;
  - the padded test name and its properties.

The CRC register is a `bv16`. The Python code keeps it in an unbounded integer and masks it with `& 0xFFFF` after each shift. A 16-bit left shift drops bit 15 just as that mask does, so every register value the model can take lies in 0..0xFFFF by construction.

Bytes are `bv8`. The MD5 digest behind the `pseudo_random` vector is a parameter.

## Model

| member | source | states |
|---|---|---|
| `Crc16.BitStep` | src/tools/test_vectors.py:27-30 | Definition; no contract. One bit step: shift left and XOR 0x1021 when bit 15 was set. The 16-bit word drops bit 15 as `& 0xFFFF` does |
| `Crc16.Steps` | src/tools/test_vectors.py:26-30 | Definition; no contract. `n` bit steps, applied in order |
| `Crc16.ByteStep` | src/tools/test_vectors.py:25-30 | Definition; no contract. XOR the byte into the high 8 bits, then eight bit steps |
| `Crc16.Crc` | src/tools/test_vectors.py:23-31 | Definition; no contract. The fold of `ByteStep` over the bytes, first byte first: the specification every CRC lemma and the method are about |
| `Crc16.Fingerprint` | src/tools/test_vectors.py:18 | Definition; no contract. `Crc` with the default initial value 0xFFFF |
| `Crc16.Crc16Ccitt` | src/tools/test_vectors.py:18-31 | The nested byte/bit loops compute exactly `Crc(data, init)`: each byte is XORed into the high 8 bits, then eight MSB-first bit steps run |
| `Crc16.CrcUnfold` | src/tools/test_vectors.py:24-30 | Proof helper for the loop of `Crc16Ccitt`. Processing byte `i` is one step of the fold: the CRC of `data[i..]` equals the CRC of `data[i+1..]` started from the register after `ByteStep` |
| `Crc16.CrcEmpty` | src/tools/test_vectors.py:23-31 | On empty data the result is the initial value |
| `Crc16.BitStepReduction` | src/tools/test_vectors.py:27-30 | A bit step differs from a plain left shift if and only if bit 15 was set before the shift |
| `Crc16.CrcAppend` | src/tools/test_vectors.py:23-31 | Streaming law: `Crc(a + b, init) == Crc(b, Crc(a, init))` |
| `Crc16.CrcSnoc` | src/tools/test_vectors.py:24-30 | Appending one byte applies one more byte step to the previous register |
| `Crc16.CrcChunksAgrees` | src/tools/test_vectors.py:23-31 | An implementation that folds whole chunks gives the byte-at-a-time CRC of the concatenation, whatever the chunking |
| `Crc16Residue.StepsZero` | src/tools/test_vectors.py:26-30 | A zero register stays zero through any number of bit steps |
| `Crc16Residue.LowByteShiftsOut` | src/tools/test_vectors.py:26-30 | A value confined to the low byte is only shifted by eight bit steps, never reduced |
| `Crc16Residue.CrcResidue` | src/tools/test_vectors.py:18-31 | A message followed by its own CRC, high byte first, leaves a zero register |
| `Crc16Vectors.CheckValue` | src/tools/test_vectors.py:18-31 | The fingerprint of ASCII "123456789" is 0x29B1, the catalogue check value of CRC-16/IBM-3740 |
| `Crc16Vectors.OrderSensitive` | src/tools/test_vectors.py:23-31 | The bytes 00 01 fingerprint to 0x0D2E and 01 00 to 0x2E3E, so byte order matters |
| `Hex.DigitOf` | src/tools/test_vectors.py:43 | A nibble's digit is one of 0-9, A-F |
| `Hex.DigitValue` | src/tools/test_vectors.py:43 | A character has a value exactly when it is an upper-case hex digit; the value is below 16 and its digit is that character |
| `Hex.DigitRoundTrip` | src/tools/test_vectors.py:43 | Every nibble reads back from its digit |
| `Hex.ByteToHex` | src/tools/test_vectors.py:43 | A byte renders as exactly two hex digits (`02X`) |
| `Hex.ToHexString` | src/tools/test_vectors.py:41-43 | The rendering has `2 * |data|` characters, all from 0-9A-F |
| `Hex.HexExample` | src/tools/test_vectors.py:43 | Concrete anchor: the bytes 0A F0 00 render as "0AF000" |
| `Hex.HexAt` | src/tools/test_vectors.py:43 | Byte `i` sits at positions `2i` (high nibble) and `2i+1` (low nibble), zero-padded |
| `Hex.ByteFromNibbles` | src/tools/test_vectors.py:43 | A byte is reassembled from its high and low nibbles |
| `Hex.DecodeEncode` | src/tools/test_vectors.py:41-43 | Decoding the rendering of any byte string gives the bytes back |
| `Hex.EncodeDecode` | src/tools/test_vectors.py:41-43 | Any string that decodes is the rendering of its decoded bytes, so the rendering is the only spelling |
| `Hex.DecodeAccepts` | src/tools/test_vectors.py:41-43 | The decoder accepts exactly the even-length strings of upper-case hex digits |
| `TestVectors.TileTestVector.ToHexString` | src/tools/test_vectors.py:41-43 | A vector's hex string has two characters per tile byte and decodes back to the tile |
| `TestVectors.Prefix` | src/tools/test_vectors.py:220 | `s[:n]` has length `min(|s|, n)` and is the leading part of `s` |
| `TestVectors.Spaces` | src/tools/test_vectors.py:220 | The fill has the requested length and consists of spaces |
| `TestVectors.LJust` | src/tools/test_vectors.py:220 | `s.ljust(w)` keeps `s` as its prefix, has length `max(|s|, w)` and is space beyond `s` |
| `TestVectors.PadName` | src/tools/test_vectors.py:220 | The padded name has length 16: position `k` is `name[k]` for `k < |name|`, otherwise a space |
| `TestVectors.TrimSpaces` | src/tools/test_vectors.py:220 | Trailing padding is removed by trimming, for a name that does not end in a space |
| `TestVectors.PadNameRoundTrip` | src/tools/test_vectors.py:220 | A name of at most 16 characters with no trailing space is recovered from its padded form |
| `TestVectors.PadNameInjective` | src/tools/test_vectors.py:220 | Distinct such names pad to distinct 16-character names |
| `TestVectors.DefaultName` | src/tools/test_vectors.py:222 | The default case label "unknown" followed by nine spaces is the padded form of "unknown" |
| `TestVectors.TileData` | src/tools/test_vectors.py:50-133 | Definition; no contract. The eight tiles in the source's order (names in `TestNames`); the seventh is the first 16 bytes of the digest parameter |
| `TestVectors.GenerateTileTestVectors` | src/tools/test_vectors.py:46-135 | Eight vectors with the source's names in its order. Every expected hash is the fingerprint of that vector's tile. With a digest of at least 16 bytes (an MD5 digest always has 16), every tile is 16 bytes and the seventh is the digest's first 16 |
| `TestVectors.ExpectedHashes` | src/tools/test_vectors.py:50-133 | The concrete expected hashes of the seven digest-independent vectors: 6A0A, 6A4B, 3B37, 96A6, 6A4B, 17AA and 627B. `all_ones` and `filled_square` share a tile and so a hash |
| `TileHashes.FingerprintAllZeros` | src/tools/test_vectors.py:50-56 | The fingerprint of 16 zero bytes is 0x6A0A |
| `TileHashes.FingerprintAllOnes` | src/tools/test_vectors.py:58-98 | The fingerprint of 16 bytes 0xFF (the tile of both `all_ones` and `filled_square`) is 0x6A4B |
| `TileHashes.FingerprintSequential` | src/tools/test_vectors.py:66-72 | The fingerprint of the bytes 0..15 is 0x3B37 |
| `TileHashes.FingerprintAlternating` | src/tools/test_vectors.py:74-80 | The fingerprint of AA 55 repeated eight times is 0x96A6 |
| `TileHashes.FingerprintLetterA` | src/tools/test_vectors.py:100-115 | The fingerprint of the letter-A tile is 0x17AA |
| `TileHashes.FingerprintSingleBit` | src/tools/test_vectors.py:127-133 | The fingerprint of 0x80 followed by 15 zero bytes is 0x627B |
| `TestVectors.TileLengths` | src/tools/test_vectors.py:195-205 | With a 16-byte digest every tile is 16 bytes, so its hex string is the 32 digits of a `128'h` literal |
| `TestVectors.TestNamesFit` | src/tools/test_vectors.py:218-221 | Every test name fits the 16-character field and none ends in a space |
| `TestVectors.DistinctTestNames` | src/tools/test_vectors.py:218-221 | The eight padded names are pairwise distinct, so the cases of `get_test_name` are distinguishable |
| `TestVectors.DigitsValue` | src/tools/test_vectors.py:151 | Definition; no contract. The number a string of decimal digits denotes, the partner of `DecimalString` |
| `TestVectors.DecimalString` | src/tools/test_vectors.py:151 | The rendering of the byte index is a non-empty string of digits with no leading zero, unless it is "0" for zero |
| `TestVectors.DecimalStringValue` | src/tools/test_vectors.py:151 | The digits of `DecimalString(n)` denote `n`, so with the no-leading-zero clause the rendering is Python's `str(n)` |
| `TestVectors.WriteDescription` | src/tools/test_vectors.py:151 | Definition; no contract. "Write byte ", the decimal index, " of tile" |
| `TestVectors.TileIndex` | src/tools/test_vectors.py:144 | The tile index `t` of an address satisfies `16t <= addr < 16(t+1)`, so it is `addr / 16` |
| `TestVectors.TileOffset` | src/tools/test_vectors.py:144 | The offset is below 16, and the tile index times 16 plus the offset gives the address back |
| `TestVectors.GenerateVramWriteVectors` | src/tools/test_vectors.py:138-154 | Exactly 16 events. Event `i` writes data `i` with write enable 1 to address `0x0100 + i`; it lies in tile 16 at offset `i`, and the addresses strictly increase |

## Left out

- `Crc16.Crc16Ccitt`: the initial value is a 16-bit word. Python accepts any integer. With an `init` outside 0..0xFFFF, the source returns `init` unmasked for empty data; for non-empty data only the low 16 bits of `init` matter. The model does not represent such an `init`, so the 16-bit range of the result holds by the register's type rather than as a separate lemma.
- The pseudo-random tile is built from an MD5 digest of a fixed string. MD5 is a library call outside this model, so the digest is the `digest` parameter of `TestVectors.GenerateTileTestVectors`. The model keeps only the `[:16]` cut.
- `write_tile_vectors_hex`, `write_verilog_include` (apart from the name padding and the default name), `main`, argument parsing and printing are file and console output. They are not modelled.
- `TestVectors.GenerateVramWriteVectors`: the event is a record with natural-number fields, not a Python dictionary keyed by strings.
- The dataclass machinery of `TileTestVector` (generated equality, repr) is not modelled.
- The hardware fingerprint unit `tile_hash_generator.sv`, which the source says must match this CRC, and the other hardware blocks are not part of this model.
- A table-driven (byte-at-a-time lookup) CRC and the XOR-linearity of the register update are not stated. Chunked implementations are covered by `Crc16.CrcChunksAgrees`.
- `Hex.DigitValue` accepts upper-case digits only, the alphabet the rendering produces. Python's own hex parsers also accept lower case.
