/** Expected fingerprints of the fixed tiles, evaluated byte by byte. Each
    16-byte tile is folded in two halves of eight bytes, joined by the
    streaming law. */
module TileHashes {
  import opened Crc16

  /** The expected hash of the `all_zeros` tile. */
  lemma FingerprintAllZeros()
    ensures Fingerprint([0x00, 0x00, 0x00, 0x00, 0x00, 0x00, 0x00, 0x00, 0x00, 0x00, 0x00, 0x00, 0x00, 0x00, 0x00, 0x00]) == 0x6A0A
  {
    var head, tail := [0x00, 0x00, 0x00, 0x00, 0x00, 0x00, 0x00, 0x00], [0x00, 0x00, 0x00, 0x00, 0x00, 0x00, 0x00, 0x00];
    assert head + tail == [0x00, 0x00, 0x00, 0x00, 0x00, 0x00, 0x00, 0x00, 0x00, 0x00, 0x00, 0x00, 0x00, 0x00, 0x00, 0x00];
    calc {
      Crc(head + tail, 0xFFFF);
      { CrcAppend(head, tail, 0xFFFF); }
      Crc(tail, Crc(head, 0xFFFF));
      { AllZerosHead(); }
      Crc(tail, 0x313E);
      { AllZerosTail(); }
      0x6A0A;
    }
  }

  /** The register after the first eight bytes of `all_zeros`. */
  lemma AllZerosHead()
    ensures Crc([0x00, 0x00, 0x00, 0x00, 0x00, 0x00, 0x00, 0x00], 0xFFFF) == 0x313E
  {
    calc {
      Crc([0x00, 0x00, 0x00, 0x00, 0x00, 0x00, 0x00, 0x00], 0xFFFF);
      Crc([0x00, 0x00, 0x00, 0x00, 0x00, 0x00, 0x00], 0xE1F0);
      Crc([0x00, 0x00, 0x00, 0x00, 0x00, 0x00], 0x1D0F);
      Crc([0x00, 0x00, 0x00, 0x00, 0x00], 0xCC9C);
      Crc([0x00, 0x00, 0x00, 0x00], 0x84C0);
      Crc([0x00, 0x00, 0x00], 0x110C);
      Crc([0x00, 0x00], 0x0E10);
      Crc([0x00], 0xF1CE);
      Crc([], 0x313E);
    }
  }

  /** The last eight bytes of `all_zeros`, from that register. */
  lemma AllZerosTail()
    ensures Crc([0x00, 0x00, 0x00, 0x00, 0x00, 0x00, 0x00, 0x00], 0x313E) == 0x6A0A
  {
    calc {
      Crc([0x00, 0x00, 0x00, 0x00, 0x00, 0x00, 0x00, 0x00], 0x313E);
      Crc([0x00, 0x00, 0x00, 0x00, 0x00, 0x00, 0x00], 0x1872);
      Crc([0x00, 0x00, 0x00, 0x00, 0x00, 0x00], 0xE139);
      Crc([0x00, 0x00, 0x00, 0x00, 0x00], 0xD40F);
      Crc([0x00, 0x00, 0x00, 0x00], 0x84F9);
      Crc([0x00, 0x00, 0x00], 0x280C);
      Crc([0x00, 0x00], 0xA96A);
      Crc([0x00], 0x4EC3);
      Crc([], 0x6A0A);
    }
  }

  /** The expected hash of the `all_ones` tile. */
  lemma FingerprintAllOnes()
    ensures Fingerprint([0xFF, 0xFF, 0xFF, 0xFF, 0xFF, 0xFF, 0xFF, 0xFF, 0xFF, 0xFF, 0xFF, 0xFF, 0xFF, 0xFF, 0xFF, 0xFF]) == 0x6A4B
  {
    var head, tail := [0xFF, 0xFF, 0xFF, 0xFF, 0xFF, 0xFF, 0xFF, 0xFF], [0xFF, 0xFF, 0xFF, 0xFF, 0xFF, 0xFF, 0xFF, 0xFF];
    assert head + tail == [0xFF, 0xFF, 0xFF, 0xFF, 0xFF, 0xFF, 0xFF, 0xFF, 0xFF, 0xFF, 0xFF, 0xFF, 0xFF, 0xFF, 0xFF, 0xFF];
    calc {
      Crc(head + tail, 0xFFFF);
      { CrcAppend(head, tail, 0xFFFF); }
      Crc(tail, Crc(head, 0xFFFF));
      { AllOnesHead(); }
      Crc(tail, 0x97DF);
      { AllOnesTail(); }
      0x6A4B;
    }
  }

  /** The register after the first eight bytes of `all_ones`. */
  lemma AllOnesHead()
    ensures Crc([0xFF, 0xFF, 0xFF, 0xFF, 0xFF, 0xFF, 0xFF, 0xFF], 0xFFFF) == 0x97DF
  {
    calc {
      Crc([0xFF, 0xFF, 0xFF, 0xFF, 0xFF, 0xFF, 0xFF, 0xFF], 0xFFFF);
      Crc([0xFF, 0xFF, 0xFF, 0xFF, 0xFF, 0xFF, 0xFF], 0xFF00);
      Crc([0xFF, 0xFF, 0xFF, 0xFF, 0xFF, 0xFF], 0x0000);
      Crc([0xFF, 0xFF, 0xFF, 0xFF, 0xFF], 0x1EF0);
      Crc([0xFF, 0xFF, 0xFF, 0xFF], 0x1D0F);
      Crc([0xFF, 0xFF, 0xFF], 0xD26C);
      Crc([0xFF, 0xFF], 0x99CF);
      Crc([0xFF], 0xC360);
      Crc([], 0x97DF);
    }
  }

  /** The last eight bytes of `all_ones`, from that register. */
  lemma AllOnesTail()
    ensures Crc([0xFF, 0xFF, 0xFF, 0xFF, 0xFF, 0xFF, 0xFF, 0xFF], 0x97DF) == 0x6A4B
  {
    calc {
      Crc([0xFF, 0xFF, 0xFF, 0xFF, 0xFF, 0xFF, 0xFF, 0xFF], 0x97DF);
      Crc([0xFF, 0xFF, 0xFF, 0xFF, 0xFF, 0xFF, 0xFF], 0x32AE);
      Crc([0xFF, 0xFF, 0xFF, 0xFF, 0xFF, 0xFF], 0xA6E1);
      Crc([0xFF, 0xFF, 0xFF, 0xFF, 0xFF], 0x2ADC);
      Crc([0xFF, 0xFF, 0xFF, 0xFF], 0x47D8);
      Crc([0xFF, 0xFF, 0xFF], 0xFED3);
      Crc([0xFF, 0xFF], 0xC321);
      Crc([0xFF], 0xD6DF);
      Crc([], 0x6A4B);
    }
  }

  /** The expected hash of the `sequential` tile. */
  lemma FingerprintSequential()
    ensures Fingerprint([0x00, 0x01, 0x02, 0x03, 0x04, 0x05, 0x06, 0x07, 0x08, 0x09, 0x0A, 0x0B, 0x0C, 0x0D, 0x0E, 0x0F]) == 0x3B37
  {
    var head, tail := [0x00, 0x01, 0x02, 0x03, 0x04, 0x05, 0x06, 0x07], [0x08, 0x09, 0x0A, 0x0B, 0x0C, 0x0D, 0x0E, 0x0F];
    assert head + tail == [0x00, 0x01, 0x02, 0x03, 0x04, 0x05, 0x06, 0x07, 0x08, 0x09, 0x0A, 0x0B, 0x0C, 0x0D, 0x0E, 0x0F];
    calc {
      Crc(head + tail, 0xFFFF);
      { CrcAppend(head, tail, 0xFFFF); }
      Crc(tail, Crc(head, 0xFFFF));
      { SequentialHead(); }
      Crc(tail, 0x178D);
      { SequentialTail(); }
      0x3B37;
    }
  }

  /** The register after the first eight bytes of `sequential`. */
  lemma SequentialHead()
    ensures Crc([0x00, 0x01, 0x02, 0x03, 0x04, 0x05, 0x06, 0x07], 0xFFFF) == 0x178D
  {
    calc {
      Crc([0x00, 0x01, 0x02, 0x03, 0x04, 0x05, 0x06, 0x07], 0xFFFF);
      Crc([0x01, 0x02, 0x03, 0x04, 0x05, 0x06, 0x07], 0xE1F0);
      Crc([0x02, 0x03, 0x04, 0x05, 0x06, 0x07], 0x0D2E);
      Crc([0x03, 0x04, 0x05, 0x06, 0x07], 0xDFEF);
      Crc([0x04, 0x05, 0x06, 0x07], 0xE5F1);
      Crc([0x05, 0x06, 0x07], 0x1C0F);
      Crc([0x06, 0x07], 0x8C18);
      Crc([0x07], 0x28C2);
      Crc([], 0x178D);
    }
  }

  /** The last eight bytes of `sequential`, from that register. */
  lemma SequentialTail()
    ensures Crc([0x08, 0x09, 0x0A, 0x0B, 0x0C, 0x0D, 0x0E, 0x0F], 0x178D) == 0x3B37
  {
    calc {
      Crc([0x08, 0x09, 0x0A, 0x0B, 0x0C, 0x0D, 0x0E, 0x0F], 0x178D);
      Crc([0x09, 0x0A, 0x0B, 0x0C, 0x0D, 0x0E, 0x0F], 0x6EDE);
      Crc([0x0A, 0x0B, 0x0C, 0x0D, 0x0E, 0x0F], 0xC241);
      Crc([0x0B, 0x0C, 0x0D, 0x0E, 0x0F], 0x1944);
      Crc([0x0C, 0x0D, 0x0E, 0x0F], 0x7673);
      Crc([0x0D, 0x0E, 0x0F], 0xACDD);
      Crc([0x0E, 0x0F], 0x78CB);
      Crc([0x0F], 0xD551);
      Crc([], 0x3B37);
    }
  }

  /** The expected hash of the `alternating` tile. */
  lemma FingerprintAlternating()
    ensures Fingerprint([0xAA, 0x55, 0xAA, 0x55, 0xAA, 0x55, 0xAA, 0x55, 0xAA, 0x55, 0xAA, 0x55, 0xAA, 0x55, 0xAA, 0x55]) == 0x96A6
  {
    var head, tail := [0xAA, 0x55, 0xAA, 0x55, 0xAA, 0x55, 0xAA, 0x55], [0xAA, 0x55, 0xAA, 0x55, 0xAA, 0x55, 0xAA, 0x55];
    assert head + tail == [0xAA, 0x55, 0xAA, 0x55, 0xAA, 0x55, 0xAA, 0x55, 0xAA, 0x55, 0xAA, 0x55, 0xAA, 0x55, 0xAA, 0x55];
    calc {
      Crc(head + tail, 0xFFFF);
      { CrcAppend(head, tail, 0xFFFF); }
      Crc(tail, Crc(head, 0xFFFF));
      { AlternatingHead(); }
      Crc(tail, 0x2BD2);
      { AlternatingTail(); }
      0x96A6;
    }
  }

  /** The register after the first eight bytes of `alternating`. */
  lemma AlternatingHead()
    ensures Crc([0xAA, 0x55, 0xAA, 0x55, 0xAA, 0x55, 0xAA, 0x55], 0xFFFF) == 0x2BD2
  {
    calc {
      Crc([0xAA, 0x55, 0xAA, 0x55, 0xAA, 0x55, 0xAA, 0x55], 0xFFFF);
      Crc([0x55, 0xAA, 0x55, 0xAA, 0x55, 0xAA, 0x55], 0xF550);
      Crc([0xAA, 0x55, 0xAA, 0x55, 0xAA, 0x55], 0xE5EA);
      Crc([0x55, 0xAA, 0x55, 0xAA, 0x55], 0x532B);
      Crc([0xAA, 0x55, 0xAA, 0x55], 0x4BC6);
      Crc([0x55, 0xAA, 0x55], 0x2B0F);
      Crc([0xAA, 0x55], 0x9059);
      Crc([0x55], 0xCE19);
      Crc([], 0x2BD2);
    }
  }

  /** The last eight bytes of `alternating`, from that register. */
  lemma AlternatingTail()
    ensures Crc([0xAA, 0x55, 0xAA, 0x55, 0xAA, 0x55, 0xAA, 0x55], 0x2BD2) == 0x96A6
  {
    calc {
      Crc([0xAA, 0x55, 0xAA, 0x55, 0xAA, 0x55, 0xAA, 0x55], 0x2BD2);
      Crc([0x55, 0xAA, 0x55, 0xAA, 0x55, 0xAA, 0x55], 0x53A9);
      Crc([0xAA, 0x55, 0xAA, 0x55, 0xAA, 0x55], 0xC9C6);
      Crc([0x55, 0xAA, 0x55, 0xAA, 0x55], 0x9AC5);
      Crc([0xAA, 0x55, 0xAA, 0x55], 0xEDA3);
      Crc([0x55, 0xAA, 0x55], 0x9B23);
      Crc([0xAA, 0x55], 0x1B82);
      Crc([0x55], 0x35FA);
      Crc([], 0x96A6);
    }
  }

  /** The expected hash of the `letter_a` tile. */
  lemma FingerprintLetterA()
    ensures Fingerprint([0x18, 0x00, 0x3C, 0x00, 0x66, 0x00, 0x66, 0x00, 0x7E, 0x00, 0x66, 0x00, 0x66, 0x00, 0x00, 0x00]) == 0x17AA
  {
    var head, tail := [0x18, 0x00, 0x3C, 0x00, 0x66, 0x00, 0x66, 0x00], [0x7E, 0x00, 0x66, 0x00, 0x66, 0x00, 0x00, 0x00];
    assert head + tail == [0x18, 0x00, 0x3C, 0x00, 0x66, 0x00, 0x66, 0x00, 0x7E, 0x00, 0x66, 0x00, 0x66, 0x00, 0x00, 0x00];
    calc {
      Crc(head + tail, 0xFFFF);
      { CrcAppend(head, tail, 0xFFFF); }
      Crc(tail, Crc(head, 0xFFFF));
      { LetterAHead(); }
      Crc(tail, 0xE9F8);
      { LetterATail(); }
      0x17AA;
    }
  }

  /** The register after the first eight bytes of `letter_a`. */
  lemma LetterAHead()
    ensures Crc([0x18, 0x00, 0x3C, 0x00, 0x66, 0x00, 0x66, 0x00], 0xFFFF) == 0xE9F8
  {
    calc {
      Crc([0x18, 0x00, 0x3C, 0x00, 0x66, 0x00, 0x66, 0x00], 0xFFFF);
      Crc([0x00, 0x3C, 0x00, 0x66, 0x00, 0x66, 0x00], 0x72C9);
      Crc([0x3C, 0x00, 0x66, 0x00, 0x66, 0x00], 0x97D5);
      Crc([0x00, 0x66, 0x00, 0x66, 0x00], 0xD181);
      Crc([0x66, 0x00, 0x66, 0x00], 0x5A5C);
      Crc([0x00, 0x66, 0x00], 0xABDF);
      Crc([0x66, 0x00], 0xDB81);
      Crc([0x00], 0xF776);
      Crc([], 0xE9F8);
    }
  }

  /** The last eight bytes of `letter_a`, from that register. */
  lemma LetterATail()
    ensures Crc([0x7E, 0x00, 0x66, 0x00, 0x66, 0x00, 0x00, 0x00], 0xE9F8) == 0x17AA
  {
    calc {
      Crc([0x7E, 0x00, 0x66, 0x00, 0x66, 0x00, 0x00, 0x00], 0xE9F8);
      Crc([0x00, 0x66, 0x00, 0x66, 0x00, 0x00, 0x00], 0x0B5E);
      Crc([0x66, 0x00, 0x66, 0x00, 0x00, 0x00], 0xEF6B);
      Crc([0x00, 0x66, 0x00, 0x00, 0x00], 0x6BA1);
      Crc([0x66, 0x00, 0x00, 0x00], 0x7CCD);
      Crc([0x00, 0x00, 0x00], 0x7E7B);
      Crc([0x00, 0x00], 0xE459);
      Crc([0x00], 0xE4AA);
      Crc([], 0x17AA);
    }
  }

  /** The expected hash of the `single_bit` tile. */
  lemma FingerprintSingleBit()
    ensures Fingerprint([0x80, 0x00, 0x00, 0x00, 0x00, 0x00, 0x00, 0x00, 0x00, 0x00, 0x00, 0x00, 0x00, 0x00, 0x00, 0x00]) == 0x627B
  {
    var head, tail := [0x80, 0x00, 0x00, 0x00, 0x00, 0x00, 0x00, 0x00], [0x00, 0x00, 0x00, 0x00, 0x00, 0x00, 0x00, 0x00];
    assert head + tail == [0x80, 0x00, 0x00, 0x00, 0x00, 0x00, 0x00, 0x00, 0x00, 0x00, 0x00, 0x00, 0x00, 0x00, 0x00, 0x00];
    calc {
      Crc(head + tail, 0xFFFF);
      { CrcAppend(head, tail, 0xFFFF); }
      Crc(tail, Crc(head, 0xFFFF));
      { SingleBitHead(); }
      Crc(tail, 0xCCBF);
      { SingleBitTail(); }
      0x627B;
    }
  }

  /** The register after the first eight bytes of `single_bit`. */
  lemma SingleBitHead()
    ensures Crc([0x80, 0x00, 0x00, 0x00, 0x00, 0x00, 0x00, 0x00], 0xFFFF) == 0xCCBF
  {
    calc {
      Crc([0x80, 0x00, 0x00, 0x00, 0x00, 0x00, 0x00, 0x00], 0xFFFF);
      Crc([0x00, 0x00, 0x00, 0x00, 0x00, 0x00, 0x00], 0x7078);
      Crc([0x00, 0x00, 0x00, 0x00, 0x00, 0x00], 0x0697);
      Crc([0x00, 0x00, 0x00, 0x00, 0x00], 0xF7C6);
      Crc([0x00, 0x00, 0x00, 0x00], 0x59F8);
      Crc([0x00, 0x00, 0x00], 0x33DC);
      Crc([0x00, 0x00], 0xDA30);
      Crc([0x00], 0x5A37);
      Crc([], 0xCCBF);
    }
  }

  /** The last eight bytes of `single_bit`, from that register. */
  lemma SingleBitTail()
    ensures Crc([0x00, 0x00, 0x00, 0x00, 0x00, 0x00, 0x00, 0x00], 0xCCBF) == 0x627B
  {
    calc {
      Crc([0x00, 0x00, 0x00, 0x00, 0x00, 0x00, 0x00, 0x00], 0xCCBF);
      Crc([0x00, 0x00, 0x00, 0x00, 0x00, 0x00, 0x00], 0xA7C0);
      Crc([0x00, 0x00, 0x00, 0x00, 0x00, 0x00], 0x050D);
      Crc([0x00, 0x00, 0x00, 0x00, 0x00], 0x5DA5);
      Crc([0x00, 0x00, 0x00, 0x00], 0x2E58);
      Crc([0x00, 0x00, 0x00], 0x9DAC);
      Crc([0x00, 0x00], 0xFE14);
      Crc([0x00], 0x1AD1);
      Crc([], 0x627B);
    }
  }
}
