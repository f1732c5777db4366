/**
  The decoder `extract(uid)` of src/extract.ts: a pure function of the id
  text that splits its 64 bits 39/4/11/10 and puts the two dropped
  timestamp bits `11` back in front.
*/
module Decoder {
  import opened Results
  import opened Bits
  import opened Binary
  import opened Decimal

  /** 2^39: one past the largest 39-bit timestamp run. */
  const TWO_39: nat := 0x80_0000_0000
  /** 3 * 2^39: the value of the timestamp bits `11` put back above the 39-bit run. */
  const TS_PREFIX: nat := 0x180_0000_0000
  /** 2^41: one past the largest 41-bit timestamp. */
  const TWO_41: nat := 0x200_0000_0000
  /** 2^64: one past the largest 64-bit id. */
  const TWO_64: nat := 0x1_0000_0000_0000_0000

  /** The `Parts` record returned by `extract`. */
  datatype Parts = Parts(timestamp: nat, appId: nat, workerId: nat, counter: nat)

  /** `BigInt(uid)` threw: the text is not a number. */
  datatype ExtractError = NotANumber(uid: string)

  lemma Pow2Values()
    ensures Pow2(4) == 16 && Pow2(10) == 1024 && Pow2(11) == 2048
    ensures Pow2(21) == 0x20_0000 && Pow2(25) == 0x200_0000
    ensures Pow2(39) == TWO_39 && Pow2(64) == TWO_64
  {
    SmallPowers();
    Pow2Of39();
    Pow2Of64();
  }

  lemma SmallPowers()
    ensures Pow2(4) == 16 && Pow2(10) == 1024 && Pow2(11) == 2048
    ensures Pow2(21) == 0x20_0000 && Pow2(25) == 0x200_0000
  {
    Pow2Add(10, 11);
    Pow2Add(21, 4);
  }

  lemma Pow2Of39()
    ensures Pow2(39) == TWO_39
  {
    SmallPowers();
    Pow2Add(25, 14);
    assert Pow2(14) == 0x4000;
  }

  lemma Pow2Of64()
    ensures Pow2(64) == TWO_64
  {
    SmallPowers();
    Pow2Of39();
    Pow2Add(39, 25);
  }

  /**
    The regular expression `(\d{39})(\d{4})(\d{11})(\d{10})` applied to a
    string of at least 64 binary digits matches at its start, so the four
    runs are the first 39, 4, 11 and 10 digits; each is read with
    `Number.parseInt(_, 2)`, the first with `11` in front.
  */
  function Fields(s: string): (p: Parts)
    requires IsBinary(s) && |s| >= 64
    ensures p.timestamp == TS_PREFIX + ParseBinary(s[..39])
    ensures TS_PREFIX <= p.timestamp < TWO_41
    ensures p.appId < 16 && p.workerId < 2048 && p.counter < 1024
  {
    SmallPowers();
    PrefixedRun(s[..39]);
    Parts(ParseBinary("11" + s[..39]), ParseBinary(s[39..43]),
          ParseBinary(s[43..54]), ParseBinary(s[54..64]))
  }

  /** `extract` once `BigInt(uid)` has produced the non-negative value n. */
  function ExtractNat(n: nat): (p: Parts)
    ensures TS_PREFIX <= p.timestamp < TWO_41
    ensures p.appId < 16 && p.workerId < 2048 && p.counter < 1024
  {
    Fields(PadStart(ToBinary(n), 64))
  }

  lemma ParseEleven()
    ensures ParseBinary("11") == 3
  {
    assert "11"[..1] == "1" && "1"[..0] == [];
  }

  /** A 39-bit run read with `11` in front lands in [3 * 2^39, 2^41). */
  lemma PrefixedRun(t: string)
    requires IsBinary(t) && |t| == 39
    ensures ParseBinary("11" + t) == TS_PREFIX + ParseBinary(t)
    ensures TS_PREFIX <= ParseBinary("11" + t) < TWO_41
  {
    ParseAppend("11", t);
    ParseEleven();
    Pow2Of39();
  }

  /**
    `extract(uid)`: fails exactly when uid is not a plain digit string
    (BigInt's other accepted forms are not modelled).
  */
  function Extract(uid: string): (r: Result<Parts, ExtractError>)
    ensures r.Err? <==> !IsDecimal(uid)
    ensures r.Ok? ==> r.value == ExtractNat(DigitsValue(uid))
  {
    match StringToNat(uid)
    case None => Err(NotANumber(uid))
    case Some(n) => Ok(ExtractNat(n))
  }

  /**
    For a 64-bit id the text pipeline is plain arithmetic: the counter is
    the low 10 bits, the worker the next 11, the application the next 4,
    and the timestamp the top 39 bits with 3 * 2^39 added.
  */
  lemma ExtractNatFields(n: nat)
    requires n < TWO_64
    ensures ExtractNat(n) == Parts(TS_PREFIX + n / 0x200_0000, (n / 0x20_0000) % 16,
                                   (n / 1024) % 2048, n % 1024)
  {
    var s := PadStart(ToBinary(n), 64);
    PaddedRuns(n);
    var p := ExtractNat(n);
    assert p.timestamp == TS_PREFIX + n / 0x200_0000 by {
      Pow2Values();
      RunValue(n, 25, 39);
      TopRunFits(n);
      assert ParseBinary(s[..39]) == n / 0x200_0000;
      PrefixedRun(s[..39]);
    }
    assert p.appId == (n / 0x20_0000) % 16 by {
      Pow2Values();
      RunValue(n, 21, 4);
    }
    assert p.workerId == (n / 1024) % 2048 by {
      Pow2Values();
      RunValue(n, 10, 11);
    }
    assert p.counter == n % 1024 by {
      Pow2Values();
      ParseFixedBits(n, 10);
    }
  }

  /** The bits above position 25 of a 64-bit id fit in 39 bits. */
  lemma TopRunFits(n: nat)
    requires n < TWO_64
    ensures n / 0x200_0000 < TWO_39
    ensures (n / 0x200_0000) % TWO_39 == n / 0x200_0000
  {
  }

  /** The w-bit run that starts k bits up reads as (n / 2^k) mod 2^w. */
  lemma RunValue(n: nat, k: nat, w: nat)
    ensures ParseBinary(FixedBits(Shr(n, k), w)) == (n / Pow2(k)) % Pow2(w)
  {
    ParseFixedBits(Shr(n, k), w);
    ShrIsDiv(n, k, Pow2(k));
  }

  /** The zero-padded binary text of a 64-bit id is its 39/4/11/10-bit runs in order. */
  lemma PaddedRuns(n: nat)
    requires n < TWO_64
    ensures var s := PadStart(ToBinary(n), 64);
      && s[..39] == FixedBits(Shr(n, 25), 39)
      && s[39..43] == FixedBits(Shr(n, 21), 4)
      && s[43..54] == FixedBits(Shr(n, 10), 11)
      && s[54..64] == FixedBits(n, 10)
  {
    var s := PadStart(ToBinary(n), 64);
    assert s == FixedBits(n, 64) by {
      Pow2Of64();
      PadToFixedBits(n, 64);
    }
    var t, a, w, c := FixedBits(Shr(n, 25), 39), FixedBits(Shr(n, 21), 4),
                      FixedBits(Shr(n, 10), 11), FixedBits(n, 10);
    assert FixedBits(n, 64) == t + FixedBits(n, 25) by { SplitFixedBits(n, 39, 25); }
    assert FixedBits(n, 25) == a + FixedBits(n, 21) by { SplitFixedBits(n, 4, 21); }
    assert FixedBits(n, 21) == w + c by { SplitFixedBits(n, 11, 10); }
    assert s == t + (a + (w + c));
  }
}
