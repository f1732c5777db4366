/**
  The encoder `uid(now)` of src/uid.ts: it refuses timestamps below the
  floor, advances the per-millisecond counter, and packs the low 39 bits of
  `now`, the application tag, the worker tag and the counter into one id,
  which it records and returns as decimal text.
*/
module Encoder {
  import opened Results
  import opened Bits
  import opened Decimal
  import opened Config
  import opened Decoder

  /** `uid` threw: `now` lies before the floor `minTs`. */
  datatype UidError = ClockRegression(now: int, minTs: int)

  /**
    `BigInt(now) & b39`, the low 39 bits of `now`. Dafny's `%` never yields
    a negative remainder, which is what masking a two's-complement BigInt
    gives for a negative `now` too.
  */
  function Low39(now: int): (t: nat)
    ensures t < TWO_39
  {
    now % TWO_39
  }

  /**
    The id layout, most significant first: 39 timestamp bits, 4 application
    bits, 11 worker bits, 10 counter bits.
  */
  function Pack(now: int, app: nat, worker: nat, counter: nat): (r: nat)
    ensures app <= APP_MASK && worker <= WORKER_MASK && counter < 1024 ==> r < TWO_64
  {
    Low39(now) * 0x200_0000 + app * 0x20_0000 + worker * 1024 + counter
  }

  /** The expression `(now39 | appId | workerId) + counter` as the encoder writes it. */
  function PackAsWritten(now: int, app: nat, worker: nat, counter: nat): (r: nat)
    ensures r <= Pack(now, app, worker, counter)
  {
    Or(Or(Low39(now) * 0x200_0000, app * 0x20_0000), worker * 1024) + counter
  }

  /** With both tags inside their fields, the ORs never meet a set bit: they add. */
  lemma PackAsWrittenIsPack(now: int, app: nat, worker: nat, counter: nat)
    requires app <= APP_MASK && worker <= WORKER_MASK
    ensures PackAsWritten(now, app, worker, counter) == Pack(now, app, worker, counter)
  {
    Pow2Values();
    var t := Low39(now);
    var high := t * 16 + app;
    assert Or(t * 0x200_0000, app * 0x20_0000) == high * 0x20_0000 by {
      assert t * 0x200_0000 == (t * 16) * Pow2(21);
      OrShift(t * 16, app, 21);
      OrDisjoint(t, app, 4);
    }
    assert Or(high * 0x20_0000, worker * 1024) == (high * 2048 + worker) * 1024 by {
      assert high * 0x20_0000 == (high * 2048) * Pow2(10);
      OrShift(high * 2048, worker, 10);
      OrDisjoint(high, worker, 11);
    }
  }

  /**
    Decoding a packed id gives back the tags and the counter, and the low
    39 bits of the timestamp under the fixed prefix `11`.
  */
  lemma ExtractOfPack(now: int, app: nat, worker: nat, counter: nat)
    requires app <= APP_MASK && worker <= WORKER_MASK && counter < 1024
    ensures ExtractNat(Pack(now, app, worker, counter))
         == Parts(TS_PREFIX + Low39(now), app, worker, counter)
  {
    var n := Pack(now, app, worker, counter);
    var t := Low39(now);
    ExtractNatFields(n);
    DivModUnique(n, 0x200_0000, t, app * 0x20_0000 + worker * 1024 + counter);
    DivModUnique(n, 0x20_0000, t * 16 + app, worker * 1024 + counter);
    DivModUnique(t * 16 + app, 16, t, app);
    DivModUnique(n, 1024, (t * 16 + app) * 2048 + worker, counter);
    DivModUnique((t * 16 + app) * 2048 + worker, 2048, t * 16 + app, worker);
  }

  /**
    Inside the era whose timestamps start with the bits `11`
    (3 * 2^39 <= now < 2^41), putting the prefix back restores `now`.
  */
  lemma EraTimestamp(now: int)
    requires TS_PREFIX <= now < TWO_41
    ensures TS_PREFIX + Low39(now) == now
  {
    DivModUnique(now, TWO_39, 3, now - TS_PREFIX);
  }

  /**
    `extract(uid)` inverts the encoder: the decimal id text decodes to the
    timestamp, the tags and the counter that went in.
  */
  lemma RoundTrip(now: int, app: nat, worker: nat, counter: nat)
    requires TS_PREFIX <= now < TWO_41
    requires app <= APP_MASK && worker <= WORKER_MASK && counter < 1024
    ensures Extract(NatToString(Pack(now, app, worker, counter))) == Ok(Parts(now, app, worker, counter))
  {
    var n := Pack(now, app, worker, counter);
    ParseOfPrint(n);
    ExtractOfPack(now, app, worker, counter);
    EraTimestamp(now);
  }

  /**
    Without an overflow policy, the 1025th id of one millisecond carries
    into the worker field: it decodes with the next worker tag and counter 0.
  */
  lemma CounterOverflow(now: int, app: nat, worker: nat)
    requires app <= APP_MASK && worker < WORKER_MASK
    ensures ExtractNat(Pack(now, app, worker, 1024))
         == Parts(TS_PREFIX + Low39(now), app, worker + 1, 0)
  {
    assert Pack(now, app, worker, 1024) == Pack(now, app, worker + 1, 0);
    ExtractOfPack(now, app, worker + 1, 0);
  }

  /**
    `uid(now)`: refuse a timestamp below the floor without touching the
    state; otherwise advance the counter, record the millisecond and the
    id, and return the id as decimal text.
  */
  method Uid(cfg: Cfg, now: int) returns (r: Result<string, UidError>)
    requires cfg.Valid()
    modifies cfg
    ensures cfg.Valid()
    ensures cfg.appId == old(cfg.appId) && cfg.workerId == old(cfg.workerId)
    ensures cfg.minTs == old(cfg.minTs)
    ensures now < old(cfg.minTs) ==>
      && r == Err(ClockRegression(now, old(cfg.minTs)))
      && cfg.counter == old(cfg.counter) && cfg.lastTs == old(cfg.lastTs)
      && cfg.lastId == old(cfg.lastId)
    ensures old(cfg.minTs) <= now ==>
      && cfg.counter == (if now == old(cfg.lastTs) then old(cfg.counter) + 1 else 0)
      && cfg.lastTs == now
      && cfg.lastId == Pack(now, cfg.appId, cfg.workerId, cfg.counter)
      && r == Ok(NatToString(cfg.lastId))
  {
    if now < cfg.minTs {
      return Err(ClockRegression(now, cfg.minTs));
    }
    cfg.counter := if now == cfg.lastTs then cfg.counter + 1 else 0;
    cfg.lastTs := now;
    var id := PackAsWritten(now, cfg.appId, cfg.workerId, cfg.counter);
    PackAsWrittenIsPack(now, cfg.appId, cfg.workerId, cfg.counter);
    cfg.lastId := id;
    r := Ok(NatToString(id));
  }

  /**
    Fresh state, both tags set, two ids in the same millisecond: the ids
    are consecutive numbers, and they decode to counters 0 and 1 with the
    tags and `now` intact.
  */
  method SameMillisecondIds(startTs: int, now: int, app: nat, worker: nat)
    returns (id1: Result<string, UidError>, id2: Result<string, UidError>,
             first: Result<Parts, ExtractError>, second: Result<Parts, ExtractError>)
    requires startTs <= now && TS_PREFIX <= now < TWO_41
    requires app <= APP_MASK && worker <= WORKER_MASK
    ensures id1 == Ok(NatToString(Pack(now, app, worker, 0)))
    ensures id2 == Ok(NatToString(Pack(now, app, worker, 0) + 1))
    ensures first == Ok(Parts(now, app, worker, 0))
    ensures second == Ok(Parts(now, app, worker, 1))
  {
    var cfg := new Cfg(startTs);
    cfg.SetAppId(app as real);
    cfg.SetWorkerId(worker as real);
    assert cfg.appId == app && cfg.workerId == worker by {
      InRangeTagKept(app, APP_MASK);
      InRangeTagKept(worker, WORKER_MASK);
    }
    ghost var n := Pack(now, app, worker, 0);
    id1 := Uid(cfg, now);
    assert cfg.counter == 0 && cfg.lastId == n;
    id2 := Uid(cfg, now);
    assert cfg.counter == 1;
    assert cfg.lastId == Pack(now, app, worker, 1) == n + 1;
    first := Extract(id1.value);
    second := Extract(id2.value);
    RoundTrip(now, app, worker, 0);
    RoundTrip(now, app, worker, 1);
  }
}
