/**
  The state store `cfg` of src/cfg.ts: the application and worker tags with
  their validating setters, and the encoder's bookkeeping fields.
*/
module Config {

  /** `0b1111`: the largest application tag, and the scale of a fractional one. */
  const APP_MASK: nat := 15
  /** `0b11111111111`: the largest worker tag, and the scale of a fractional one. */
  const WORKER_MASK: nat := 2047

  /** `Math.round(x)`: the nearest integer, halves rounded up. */
  function Round(x: real): (r: int)
    ensures r as real - 0.5 <= x < r as real + 0.5
  {
    (x + 0.5).Floor
  }

  predicate IsIntegral(x: real) {
    x.Floor as real == x
  }

  /**
    What a setter is given: a fraction in [0, 1), or a non-negative
    integer.
  */
  predicate IsTagInput(id: real) {
    0.0 <= id && (1.0 <= id ==> IsIntegral(id))
  }

  /**
    The setters' rule: a value below 1 is a fraction scaled to the tag's
    range and rounded; anything else is reduced modulo the field size.
  */
  function ScaleOrWrap(id: real, bits: nat): (tag: int)
    requires IsTagInput(id)
    ensures 0 <= tag <= bits
    ensures IsIntegral(id) ==> tag == id.Floor % (bits + 1)
    ensures id < 1.0 ==> tag as real - 0.5 <= id * bits as real < tag as real + 0.5
  {
    if id < 1.0 then
      ScaledRound(id, bits);
      Round(id * bits as real)
    else
      id.Floor % (bits + 1)
  }

  /** A fraction scaled to 0..bits rounds to a tag in 0..bits. */
  lemma ScaledRound(id: real, bits: nat)
    requires 0.0 <= id < 1.0
    ensures var tag := Round(id * bits as real);
      && 0 <= tag <= bits
      && tag as real - 0.5 <= id * bits as real < tag as real + 0.5
      && (IsIntegral(id) ==> tag == id.Floor % (bits + 1))
  {
    var x := id * bits as real;
    ScaleBetween(id, bits as real);
    RoundWithin(x, bits);
    if IsIntegral(id) {
      assert id == 0.0;
      assert x == 0.0;
    }
  }

  /** Rounding a value in [0, b] stays in 0..b. */
  lemma RoundWithin(x: real, b: nat)
    requires 0.0 <= x <= b as real
    ensures 0 <= Round(x) <= b
  {
  }

  lemma ScaleBetween(f: real, b: real)
    requires 0.0 <= f < 1.0 && 0.0 <= b
    ensures 0.0 <= f * b <= b
  {
    MulNonneg(f, b);
    MulNonneg(1.0 - f, b);
    assert (1.0 - f) * b == b - f * b;
  }

  lemma MulNonneg(x: real, y: real)
    requires x >= 0.0 && y >= 0.0
    ensures x * y >= 0.0
  {
  }

  /** An integer that already fits the field is stored exactly as given. */
  lemma InRangeTagKept(x: nat, bits: nat)
    requires x <= bits
    ensures ScaleOrWrap(x as real, bits) == x
  {
    assert (x as real).Floor == x;
  }

  /** A fraction just below 1 takes the top tag; 20 wraps to 20 mod 16. */
  lemma TagExamples()
    ensures ScaleOrWrap(0.999999, APP_MASK) == 15
    ensures ScaleOrWrap(20.0, APP_MASK) == 4
  {
  }

  class Cfg {
    /** The application tag behind the `appId` getter and setter. */
    var appId: int
    /** The worker tag behind the `workerId` getter and setter. */
    var workerId: int
    /** The id the encoder produced last. */
    var lastId: nat
    /** The millisecond of the encoder's last successful call. */
    var lastTs: int
    /** The per-millisecond sequence number of the last id. */
    var counter: nat
    /** The floor below which the encoder refuses timestamps. */
    var minTs: int

    /** The setters keep both tags inside their bit fields. */
    ghost predicate Valid()
      reads this
    {
      0 <= appId <= APP_MASK && 0 <= workerId <= WORKER_MASK
    }

    /** The object as the module creates it, the floor being the start time. */
    constructor (startTs: int)
      ensures Valid()
      ensures appId == 0 && workerId == 0
      ensures lastId == 0 && lastTs == 0 && counter == 0 && minTs == startTs
    {
      appId, workerId := 0, 0;
      lastId, lastTs, counter := 0, 0, 0;
      minTs := startTs;
    }

    /** `cfg.appId = id`; no other field changes. */
    method SetAppId(id: real)
      requires Valid() && IsTagInput(id)
      modifies this`appId
      ensures Valid()
      ensures appId == ScaleOrWrap(id, APP_MASK)
    {
      appId := ScaleOrWrap(id, APP_MASK);
    }

    /** `cfg.workerId = id`; no other field changes. */
    method SetWorkerId(id: real)
      requires Valid() && IsTagInput(id)
      modifies this`workerId
      ensures Valid()
      ensures workerId == ScaleOrWrap(id, WORKER_MASK)
    {
      workerId := ScaleOrWrap(id, WORKER_MASK);
    }

    /** `cfg.minTs = ms`, the assignment the time synchronisation makes. */
    method SetMinTs(ms: int)
      requires Valid()
      modifies this`minTs
      ensures Valid()
      ensures minTs == ms
    {
      minTs := ms;
    }
  }
}
