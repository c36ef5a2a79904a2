/** The tile fingerprint: bit-serial CRC-16 with generator 0x1021 (ITU-T V.41),
    initial value 0xFFFF, most-significant bit first, no reflection and no final
    XOR -- the parameter set catalogued as CRC-16/IBM-3740 (CRC-16/CCITT-FALSE). */
module Crc16 {

  /** The CRC register. The Python code keeps it in an unbounded int and masks
      it with `& 0xFFFF` after every shift; here it is a 16-bit word, whose left
      shift drops bit 15 exactly as that mask does. Every value the register
      takes therefore lies in 0..0xFFFF by construction. */
  type Word = bv16

  /** One iteration of the inner (bit) loop: shift left by one and XOR the
      polynomial 0x1021 exactly when bit 15 was set before the shift. */
  function BitStep(crc: Word): Word
  {
    if crc & 0x8000 != 0 then (crc << 1) ^ 0x1021 else crc << 1
  }

  /** `n` iterations of the bit loop, applied in order. */
  function Steps(crc: Word, n: nat): Word
    decreases n
  {
    if n == 0 then crc else Steps(BitStep(crc), n - 1)
  }

  /** One iteration of the outer (byte) loop: the byte is XORed into the high
      half of the register, then exactly eight bit steps run. */
  function ByteStep(crc: Word, b: bv8): Word
  {
    Steps(crc ^ ((b as Word) << 8), 8)
  }

  /** The CRC of `data` starting from register value `init`: the bytes are
      folded into the register one at a time, first byte first. */
  function Crc(data: seq<bv8>, init: Word): Word
  {
    if data == [] then init else Crc(data[1..], ByteStep(init, data[0]))
  }

  /** The fingerprint of a tile: the CRC with the default initial value. */
  function Fingerprint(data: seq<bv8>): Word
  {
    Crc(data, 0xFFFF)
  }

  /** The source's `crc16_ccitt`: a byte loop with a nested eight-iteration bit
      loop updating one accumulator. */
  method Crc16Ccitt(data: seq<bv8>, init: Word) returns (crc: Word)
    ensures crc == Crc(data, init)
  {
    crc := init;
    for i := 0 to |data|
      invariant Crc(data[i..], crc) == Crc(data, init)
    {
      var byte := data[i];
      ghost var before := crc;
      crc := crc ^ ((byte as Word) << 8);
      for j := 0 to 8
        invariant Steps(crc, 8 - j) == ByteStep(before, byte)
      {
        ghost var prev := crc;
        if crc & 0x8000 != 0 {
          crc := (crc << 1) ^ 0x1021;
        } else {
          crc := crc << 1;
        }
        assert crc == BitStep(prev);
      }
      CrcUnfold(data, i, before);
    }
    assert data[|data|..] == [];
  }

  /** Processing byte `i` of `data` is one step of the fold. */
  lemma CrcUnfold(data: seq<bv8>, i: nat, crc: Word)
    requires i < |data|
    ensures Crc(data[i..], crc) == Crc(data[i + 1..], ByteStep(crc, data[i]))
  {
  }

  /** On empty data the register is returned unchanged. */
  lemma CrcEmpty(init: Word)
    ensures Crc([], init) == init
  {
  }

  /** The bit step reduces by the polynomial (differs from a plain shift)
      exactly when bit 15 was set before the shift. */
  lemma BitStepReduction(crc: Word)
    ensures BitStep(crc) != crc << 1 <==> crc & 0x8000 != 0
  {
  }

  /** Streaming law: feeding `a` then `b` into one register is the same as
      feeding `a + b`. */
  lemma {:induction false} CrcAppend(a: seq<bv8>, b: seq<bv8>, init: Word)
    ensures Crc(a + b, init) == Crc(b, Crc(a, init))
  {
    if a == [] {
      assert a + b == b;
    } else {
      assert (a + b)[1..] == a[1..] + b;
      CrcAppend(a[1..], b, ByteStep(init, a[0]));
    }
  }

  /** Appending one byte runs one more iteration of the byte loop. */
  lemma CrcSnoc(a: seq<bv8>, x: bv8, init: Word)
    ensures Crc(a + [x], init) == ByteStep(Crc(a, init), x)
  {
    CrcAppend(a, [x], init);
  }

  /** Concatenation of a sequence of chunks. */
  function Flatten(chunks: seq<seq<bv8>>): seq<bv8>
  {
    if chunks == [] then [] else chunks[0] + Flatten(chunks[1..])
  }

  /** A multi-byte-per-step implementation: each step folds a whole chunk into
      the register. */
  function CrcChunks(chunks: seq<seq<bv8>>, init: Word): Word
  {
    if chunks == [] then init else CrcChunks(chunks[1..], Crc(chunks[0], init))
  }

  /** Whatever the chunking, the multi-byte implementation gives the same
      result as the byte-at-a-time CRC of the concatenated data. */
  lemma {:induction false} CrcChunksAgrees(chunks: seq<seq<bv8>>, init: Word)
    ensures CrcChunks(chunks, init) == Crc(Flatten(chunks), init)
  {
    if chunks != [] {
      CrcAppend(chunks[0], Flatten(chunks[1..]), init);
      CrcChunksAgrees(chunks[1..], Crc(chunks[0], init));
    }
  }
}

/** The residue property: a message followed by its own CRC, high byte first,
    checks to zero. */
module Crc16Residue {
  import opened Crc16

  /** A zero register stays zero through any number of bit steps. */
  lemma {:induction false} StepsZero(n: nat)
    ensures Steps(0, n) == 0
    decreases n
  {
    if n > 0 {
      assert BitStep(0) == 0;
      StepsZero(n - 1);
    }
  }

  /** A value held in the low byte of the register never reaches bit 15 before
      a shift in eight steps, so it is only shifted, never reduced. */
  lemma LowByteShiftsOut(x: Word)
    requires x <= 0xFF
    ensures Steps(x, 8) == x << 8
  {
  }

  /** Residue property of a CRC with no reflection and no final XOR: appending
      the CRC of a message to it, high byte first, leaves a zero register. */
  lemma CrcResidue(data: seq<bv8>, init: Word, hi: bv8, lo: bv8)
    requires ((hi as Word) << 8) ^ (lo as Word) == Crc(data, init)
    ensures Crc(data + [hi, lo], init) == 0
  {
    assert data + [hi, lo] == (data + [hi]) + [lo];
    CrcSnoc(data + [hi], lo, init);
    CrcSnoc(data, hi, init);
    LowByteShiftsOut(lo as Word);
    StepsZero(8);
  }
}

/** Concrete fingerprints, evaluated step by step. */
module Crc16Vectors {
  import opened Crc16

  /** The catalogue check value of CRC-16/IBM-3740: the fingerprint of the
      ASCII string "123456789" is 0x29B1. */
  lemma CheckValue()
    ensures Fingerprint([0x31, 0x32, 0x33, 0x34, 0x35, 0x36, 0x37, 0x38, 0x39]) == 0x29B1
  {
    calc {
      Crc([0x31, 0x32, 0x33, 0x34, 0x35, 0x36, 0x37, 0x38, 0x39], 0xFFFF);
      Crc([0x32, 0x33, 0x34, 0x35, 0x36, 0x37, 0x38, 0x39], 0xC782);
      Crc([0x33, 0x34, 0x35, 0x36, 0x37, 0x38, 0x39], 0x3DBA);
      Crc([0x34, 0x35, 0x36, 0x37, 0x38, 0x39], 0x5BCE);
      Crc([0x35, 0x36, 0x37, 0x38, 0x39], 0x5349);
      Crc([0x36, 0x37, 0x38, 0x39], 0x4560);
      Crc([0x37, 0x38, 0x39], 0x2EF4);
      Crc([0x38, 0x39], 0x7718);
      Crc([0x39], 0xA12B);
      Crc([], 0x29B1);
    }
  }

  /** The fingerprint is order-sensitive: swapping two bytes changes it. */
  lemma OrderSensitive()
    ensures Fingerprint([0x00, 0x01]) == 0x0D2E
    ensures Fingerprint([0x01, 0x00]) == 0x2E3E
  {
    calc {
      Crc([0x00, 0x01], 0xFFFF);
      Crc([0x01], 0xE1F0);
      Crc([], 0x0D2E);
    }
    calc {
      Crc([0x01, 0x00], 0xFFFF);
      Crc([0x00], 0xF1D1);
      Crc([], 0x2E3E);
    }
  }
}
