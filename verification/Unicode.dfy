/**
 * Text as the runtime holds it, UTF-16 code units, and as it is hashed and stored: Unicode scalar values. Writing
 * text out and reading it back replaces each lone surrogate by U+FFFD; everything else survives. The byte layout of
 * a scalar value is not modelled.
 */
module Unicode {
  import opened ContentPool

  predicate High(u: nat) { 0xD800 <= u < 0xDC00 }
  predicate Low(u: nat) { 0xDC00 <= u < 0xE000 }

  /** Code units, each below 0x1_0000. */
  ghost predicate Units(t: Text) { forall i | 0 <= i < |t| :: t[i] < 0x1_0000 }

  predicate StartsPair(t: Text) { |t| > 1 && High(t[0]) && Low(t[1]) }

  function Scalar(high: nat, low: nat): nat
    requires High(high) && Low(low)
  {
    0x1_0000 + (high - 0xD800) * 0x400 + (low - 0xDC00)
  }

  /** `Buffer.from(text, 'utf-8')`, up to byte layout. */
  function Encode(t: Text): seq<int> {
    if t == [] then []
    else if StartsPair(t) then [Scalar(t[0], t[1])] + Encode(t[2..])
    else [if High(t[0]) || Low(t[0]) then 0xFFFD else t[0]] + Encode(t[1..])
  }

  function UnitsOf(scalar: int): Text {
    if scalar < 0 then []
    else if scalar < 0x1_0000 then [scalar]
    else [0xD800 + (scalar - 0x1_0000) / 0x400, 0xDC00 + (scalar - 0x1_0000) % 0x400]
  }

  /** `toString('utf-8')`, up to byte layout. */
  function Decode(scalars: seq<int>): Text {
    if scalars == [] then [] else UnitsOf(scalars[0]) + Decode(scalars[1..])
  }

  /** Each lone surrogate replaced. */
  function Scrub(t: Text): Text {
    if t == [] then []
    else if StartsPair(t) then t[..2] + Scrub(t[2..])
    else [if High(t[0]) || Low(t[0]) then 0xFFFD else t[0]] + Scrub(t[1..])
  }

  /** Surrogates stand only in pairs, a high one before a low one. */
  ghost predicate WellFormed(t: Text) {
    && (forall i | 0 <= i < |t| && High(t[i]) :: i + 1 < |t| && Low(t[i + 1]))
    && (forall i | 0 <= i < |t| && Low(t[i]) :: i > 0 && High(t[i - 1]))
  }

  lemma PairSplits(high: nat, low: nat)
    requires High(high) && Low(low)
    ensures UnitsOf(Scalar(high, low)) == [high, low]
  {
    var h, l := high - 0xD800, low - 0xDC00;
    assert (h * 0x400 + l) / 0x400 == h && (h * 0x400 + l) % 0x400 == l;
  }

  /** Storing text and reading it back replaces its lone surrogates, and nothing else. */
  lemma {:induction false} DecodeEncode(t: Text)
    requires Units(t)
    ensures Decode(Encode(t)) == Scrub(t)
  {
    if t != [] {
      if StartsPair(t) {
        DecodeEncode(t[2..]);
        PairSplits(t[0], t[1]);
        assert Encode(t)[1..] == Encode(t[2..]);
        assert t[..2] == [t[0], t[1]];
      } else {
        DecodeEncode(t[1..]);
        assert Encode(t)[1..] == Encode(t[1..]);
      }
    }
  }

  lemma DropPairWellFormed(t: Text)
    requires StartsPair(t)
    ensures WellFormed(t) <==> WellFormed(t[2..])
  {
    var rest := t[2..];
    forall i | 0 <= i < |rest| ensures rest[i] == t[i + 2] {}
    if WellFormed(rest) {
      forall i | 0 <= i < |t|
        ensures High(t[i]) ==> i + 1 < |t| && Low(t[i + 1])
        ensures Low(t[i]) ==> i > 0 && High(t[i - 1])
      {
        if i >= 2 { assert rest[i - 2] == t[i]; }
      }
    }
    if WellFormed(t) {
      forall i | 0 <= i < |rest|
        ensures High(rest[i]) ==> i + 1 < |rest| && Low(rest[i + 1])
        ensures Low(rest[i]) ==> i > 0 && High(rest[i - 1])
      {
        assert t[i + 2] == rest[i];
      }
    }
  }

  lemma DropUnitWellFormed(t: Text)
    requires t != [] && !High(t[0]) && !Low(t[0])
    ensures WellFormed(t) <==> WellFormed(t[1..])
  {
    var rest := t[1..];
    if WellFormed(rest) {
      forall i | 0 <= i < |t|
        ensures High(t[i]) ==> i + 1 < |t| && Low(t[i + 1])
        ensures Low(t[i]) ==> i > 0 && High(t[i - 1])
      {
        if i >= 1 { assert rest[i - 1] == t[i]; }
      }
    }
    if WellFormed(t) {
      forall i | 0 <= i < |rest|
        ensures High(rest[i]) ==> i + 1 < |rest| && Low(rest[i + 1])
        ensures Low(rest[i]) ==> i > 0 && High(rest[i - 1])
      {
        assert t[i + 1] == rest[i];
      }
    }
  }

  /** Text survives storage unchanged exactly when it is well-formed. */
  lemma {:induction false} SurvivesExactlyWhenWellFormed(t: Text)
    ensures Scrub(t) == t <==> WellFormed(t)
  {
    if t != [] {
      if StartsPair(t) {
        SurvivesExactlyWhenWellFormed(t[2..]);
        DropPairWellFormed(t);
        assert t == t[..2] + t[2..];
        assert Scrub(t)[2..] == Scrub(t[2..]);
      } else if High(t[0]) || Low(t[0]) {
        assert Scrub(t)[0] == 0xFFFD;
      } else {
        SurvivesExactlyWhenWellFormed(t[1..]);
        DropUnitWellFormed(t);
        assert t == [t[0]] + t[1..];
        assert Scrub(t)[1..] == Scrub(t[1..]);
      }
    }
  }
}
