/**
 * The camerabin video encoder control: conversion of a frame rate to the
 * rational form the capture pipeline expects, the list of supported frame
 * rates, and the user/actual settings pair.
 *
 * Frame rates are exact reals; qRound on the non-negative values that occur
 * here is Floor(x + 1/2).
 */
module VideoEncoder {

  /** A denominator the rational search may try. */
  type Denominator = d: int | d >= 1 witness 1

  /** The denominators `rateAsRational` tries, in the order the loop visits them.
      1001 comes before 1000, so on a tie between those two the loop keeps 1001
      (see RateTie). */
  const Candidates: seq<Denominator> := [1, 2, 3, 5, 10, 25, 30, 50, 100, 1001, 1000]

  /** Frame rates at or below this bound give the null pair (0, 0). */
  const MinFrameRate: real := 0.001

  /** A candidate with an error below this bound ends the search. */
  const ExactEnough: real := 0.00000001

  /** qRound: the nearest integer, halves rounded up. (Qt's formula for negative
      arguments also comes to Floor(x + 1/2) in exact arithmetic.) */
  function QRound(x: real): (r: int)
    ensures r as real - 0.5 <= x < r as real + 0.5
  {
    (x + 0.5).Floor
  }

  function Abs(x: real): real {
    if x < 0.0 then -x else x
  }

  /** |num/den - f|: how far the pair (num, den) is from the frame rate f. */
  function Error(f: real, num: int, den: int): real
    requires den != 0
  {
    Abs(num as real / den as real - f)
  }

  /** qRound(f * d): the numerator that best matches f over denominator d. */
  function Numerator(f: real, d: int): int {
    QRound(f * d as real)
  }

  /** The numerator the search pairs with candidate k. */
  function CandidateNum(f: real, k: int): int
    requires f > 0.0 && 0 <= k < |Candidates|
  {
    Numerator(f, Candidates[k])
  }

  /** The error of the pair the search builds from candidate k. */
  function CandidateError(f: real, k: int): real
    requires f > 0.0 && 0 <= k < |Candidates|
  {
    Error(f, CandidateNum(f, k), Candidates[k])
  }

  /** The search visits exactly the first m candidates: none before the m-th is
      within ExactEnough, and the m-th is unless the list ran out. */
  ghost predicate StopsAfter(f: real, m: int)
    requires f > 0.0
  {
    && 1 <= m <= |Candidates|
    && (forall j :: 0 <= j < m - 1 ==> CandidateError(f, j) >= ExactEnough)
    && (m < |Candidates| ==> CandidateError(f, m - 1) < ExactEnough)
  }

  /** Among the first m candidates, b has the least error and every candidate
      before it is strictly worse (a tie keeps the earlier one). */
  ghost predicate IsFirstBest(f: real, b: int, m: int)
    requires f > 0.0 && 0 <= b < m <= |Candidates|
  {
    && (forall j :: 0 <= j < m ==> CandidateError(f, b) <= CandidateError(f, j))
    && (forall j :: 0 <= j < b ==> CandidateError(f, b) < CandidateError(f, j))
  }

  /** What rateAsRational promises: the null pair for rates at or below
      MinFrameRate; otherwise the first visited candidate with the least error,
      with its rounded numerator. */
  ghost predicate IsRationalRate(f: real, num: int, den: int) {
    if f <= MinFrameRate then num == 0 && den == 0
    else exists m, b :: StopsAfter(f, m) && 0 <= b < m && IsFirstBest(f, b, m)
                        && den == Candidates[b] && num == CandidateNum(f, b)
  }

  /** The first candidate (denominator 1) is never more than 1/2 away. */
  lemma FirstCandidateError(f: real)
    requires f > 0.0
    ensures CandidateError(f, 0) <= 0.5
  {
    assert Candidates[0] == 1;
    assert f * (1 as real) == f;
    assert CandidateNum(f, 0) as real / (1 as real) == CandidateNum(f, 0) as real;
  }

  /** Convert a frame rate to a (numerator, denominator) pair. */
  method RateAsRational(frameRate: real) returns (num: int, den: int)
    ensures IsRationalRate(frameRate, num, den)
  {
    if frameRate > MinFrameRate {
      var error := 1.0;
      num, den := 1, 1;
      ghost var best := 0;
      var i := 0;
      FirstCandidateError(frameRate);
      while i < |Candidates|
        invariant 0 <= i <= |Candidates| && 0 <= best < |Candidates|
        invariant i == 0 ==> error == 1.0
        invariant i > 0 ==> best < i && den == Candidates[best]
                            && num == CandidateNum(frameRate, best)
                            && error == CandidateError(frameRate, best)
        invariant forall j :: 0 <= j < i ==> CandidateError(frameRate, j) >= ExactEnough
        invariant forall j :: 0 <= j < i ==> error <= CandidateError(frameRate, j)
        invariant forall j :: 0 <= j < best ==> error < CandidateError(frameRate, j)
      {
        var curDen := Candidates[i];
        var curNum := CandidateNum(frameRate, i);
        var curError := CandidateError(frameRate, i);
        if curError < error {
          error, num, den := curError, curNum, curDen;
          best := i;
        }
        i := i + 1;
        if curError < ExactEnough {
          assert StopsAfter(frameRate, i) && IsFirstBest(frameRate, best, i);
          break;
        }
      }
      assert StopsAfter(frameRate, i) && IsFirstBest(frameRate, best, i);
    } else {
      num, den := 0, 0;
    }
  }

  /** The search has one stopping point. */
  lemma StopsAfterUnique(f: real, m1: int, m2: int)
    requires f > 0.0 && StopsAfter(f, m1) && StopsAfter(f, m2)
    ensures m1 == m2
  {
  }

  /** At most one pair satisfies IsRationalRate, so it pins down RateAsRational. */
  lemma RationalRateUnique(f: real, num1: int, den1: int, num2: int, den2: int)
    requires IsRationalRate(f, num1, den1) && IsRationalRate(f, num2, den2)
    ensures num1 == num2 && den1 == den2
  {
    if f > MinFrameRate {
      var m1, b1 :| StopsAfter(f, m1) && 0 <= b1 < m1 && IsFirstBest(f, b1, m1)
                    && den1 == Candidates[b1] && num1 == CandidateNum(f, b1);
      var m2, b2 :| StopsAfter(f, m2) && 0 <= b2 < m2 && IsFirstBest(f, b2, m2)
                    && den2 == Candidates[b2] && num2 == CandidateNum(f, b2);
      StopsAfterUnique(f, m1, m2);
    }
  }

  /** For a positive rate the pair is a real approximation: its denominator is a
      candidate, it is within 1/2 of the rate, and within ExactEnough whenever
      the search broke before the end of the list. */
  lemma RationalRateBounds(f: real, num: int, den: int, m: int)
    requires f > MinFrameRate && IsRationalRate(f, num, den) && StopsAfter(f, m)
    ensures den in Candidates && num == Numerator(f, den)
    ensures Error(f, num, den) <= 0.5
    ensures m < |Candidates| ==> Error(f, num, den) < ExactEnough
  {
    var m', b :| StopsAfter(f, m') && 0 <= b < m' && IsFirstBest(f, b, m')
                 && den == Candidates[b] && num == CandidateNum(f, b);
    StopsAfterUnique(f, m, m');
    assert Error(f, num, den) == CandidateError(f, b);
    FirstCandidateError(f);
    assert CandidateError(f, b) <= CandidateError(f, 0);
    if m < |Candidates| {
      assert CandidateError(f, b) <= CandidateError(f, m - 1);
    }
  }

  /** A whole-number rate n is returned as n/1: candidate 1 is exact and ends the search. */
  lemma IntegralRate(n: int, num: int, den: int)
    requires n >= 1
    ensures IsRationalRate(n as real, num, den) <==> num == n && den == 1
  {
    var f := n as real;
    assert f * (1 as real) == f;
    assert CandidateNum(f, 0) == n;
    assert CandidateError(f, 0) == 0.0;
    assert StopsAfter(f, 1) && IsFirstBest(f, 0, 1);
    assert IsRationalRate(f, n, 1);
    if IsRationalRate(f, num, den) {
      RationalRateUnique(f, num, den, n, 1);
    }
  }

  /** 29.97 is found exactly at denominator 100; the break then skips 1001 and 1000. */
  lemma Rate2997(num: int, den: int)
    ensures IsRationalRate(29.97, num, den) <==> num == 2997 && den == 100
  {
    var f := 29.97;
    Rate2997Errors();
    assert IsFirstBest(f, 8, 9);
    assert IsRationalRate(f, 2997, 100);
    if IsRationalRate(f, num, den) {
      RationalRateUnique(f, num, den, 2997, 100);
    }
  }

  /** The errors of the nine candidates visited for 29.97. */
  lemma Rate2997Errors()
    ensures StopsAfter(29.97, 9) && CandidateNum(29.97, 8) == 2997 && CandidateError(29.97, 8) == 0.0
    ensures forall k :: 0 <= k < 8 ==> CandidateError(29.97, k) > 0.0
  {
    var f := 29.97;
    assert Candidates[0] == 1 && Numerator(f, 1) == 30 && Error(f, 30, 1) == 0.03;
    assert Candidates[1] == 2 && Numerator(f, 2) == 60 && Error(f, 60, 2) == 0.03;
    assert Candidates[2] == 3 && Numerator(f, 3) == 90 && Error(f, 90, 3) == 0.03;
    assert Candidates[3] == 5 && Numerator(f, 5) == 150 && Error(f, 150, 5) == 0.03;
    assert Candidates[4] == 10 && Numerator(f, 10) == 300 && Error(f, 300, 10) == 0.03;
    assert Candidates[5] == 25 && Numerator(f, 25) == 749 && Error(f, 749, 25) == 0.01;
    assert Candidates[6] == 30 && Numerator(f, 30) == 899 && Error(f, 899, 30) == 1.0 / 300.0;
    assert Candidates[7] == 50 && Numerator(f, 50) == 1499 && Error(f, 1499, 50) == 0.01;
    assert Candidates[8] == 100 && Numerator(f, 100) == 2997 && Error(f, 2997, 100) == 0.0;
    var errors := [0.03, 0.03, 0.03, 0.03, 0.03, 0.01, 1.0 / 300.0, 0.01, 0.0];
    assert forall k :: 0 <= k < 9 ==> CandidateError(f, k) == errors[k];
  }

  /** The NTSC video frame rate, about 29.97003. */
  const NtscRate: real := 30000.0 / 1001.0

  /** The NTSC rate 30000/1001 is found at denominator 1001. Denominator 100
      gives 2997/100 first, with error 3/100100, and 1001 is exact. */
  lemma RateNtsc(num: int, den: int)
    ensures IsRationalRate(NtscRate, num, den) <==> num == 30000 && den == 1001
  {
    var f := NtscRate;
    RateNtscErrors();
    assert IsFirstBest(f, 9, 10);
    assert IsRationalRate(f, 30000, 1001);
    if IsRationalRate(f, num, den) {
      RationalRateUnique(f, num, den, 30000, 1001);
    }
  }

  /** The errors of the ten candidates visited for 30000/1001. */
  lemma RateNtscErrors()
    ensures StopsAfter(NtscRate, 10) && CandidateNum(NtscRate, 9) == 30000 && CandidateError(NtscRate, 9) == 0.0
    ensures forall k :: 0 <= k < 9 ==> CandidateError(NtscRate, k) > 0.0
  {
    var f := NtscRate;
    assert Candidates[0] == 1 && Numerator(f, 1) == 30 && Error(f, 30, 1) == 30.0 / 1001.0;
    assert Candidates[1] == 2 && Numerator(f, 2) == 60 && Error(f, 60, 2) == 30.0 / 1001.0;
    assert Candidates[2] == 3 && Numerator(f, 3) == 90 && Error(f, 90, 3) == 30.0 / 1001.0;
    assert Candidates[3] == 5 && Numerator(f, 5) == 150 && Error(f, 150, 5) == 30.0 / 1001.0;
    assert Candidates[4] == 10 && Numerator(f, 10) == 300 && Error(f, 300, 10) == 30.0 / 1001.0;
    assert Candidates[5] == 25 && Numerator(f, 25) == 749 && Error(f, 749, 25) == 251.0 / 25025.0;
    assert Candidates[6] == 30 && Numerator(f, 30) == 899 && Error(f, 899, 30) == 101.0 / 30030.0;
    assert Candidates[7] == 50 && Numerator(f, 50) == 1499 && Error(f, 1499, 50) == 499.0 / 50050.0;
    assert Candidates[8] == 100 && Numerator(f, 100) == 2997 && Error(f, 2997, 100) == 3.0 / 100100.0;
    assert Candidates[9] == 1001 && Numerator(f, 1001) == 30000 && Error(f, 30000, 1001) == 0.0;
    assert forall k :: 0 <= k < 9 ==> CandidateError(f, k) >= ExactEnough;
  }

  /** A rate on which denominators 1001 and 1000 tie. */
  const TieRate: real := 2001.0 / 1001000.0

  /** The list order decides a tie: 2001/1001000 is 1/1001000 away from both
      2/1001 and 2/1000, and the loop, which tries 1001 first, keeps 2/1001. */
  lemma RateTie(num: int, den: int)
    ensures IsRationalRate(TieRate, num, den) <==> num == 2 && den == 1001
  {
    var f := TieRate;
    RateTieErrors();
    assert IsFirstBest(f, 9, 11);
    assert IsRationalRate(f, 2, 1001);
    if IsRationalRate(f, num, den) {
      RationalRateUnique(f, num, den, 2, 1001);
    }
  }

  /** The errors of all eleven candidates for 2001/1001000: the first nine round
      to 0, and the last two are equally close. */
  lemma RateTieErrors()
    ensures StopsAfter(TieRate, 11) && CandidateNum(TieRate, 9) == 2 && CandidateNum(TieRate, 10) == 2
    ensures forall k :: 0 <= k < 9 ==> CandidateNum(TieRate, k) == 0
    ensures CandidateError(TieRate, 9) == CandidateError(TieRate, 10) == 1.0 / 1001000.0
    ensures forall k :: 0 <= k < 9 ==> CandidateError(TieRate, k) > 1.0 / 1001000.0
  {
    var f := TieRate;
    assert Candidates[0] == 1 && Numerator(f, 1) == 0 && Error(f, 0, 1) == f;
    assert Candidates[1] == 2 && Numerator(f, 2) == 0 && Error(f, 0, 2) == f;
    assert Candidates[2] == 3 && Numerator(f, 3) == 0 && Error(f, 0, 3) == f;
    assert Candidates[3] == 5 && Numerator(f, 5) == 0 && Error(f, 0, 5) == f;
    assert Candidates[4] == 10 && Numerator(f, 10) == 0 && Error(f, 0, 10) == f;
    assert Candidates[5] == 25 && Numerator(f, 25) == 0 && Error(f, 0, 25) == f;
    assert Candidates[6] == 30 && Numerator(f, 30) == 0 && Error(f, 0, 30) == f;
    assert Candidates[7] == 50 && Numerator(f, 50) == 0 && Error(f, 0, 50) == f;
    assert Candidates[8] == 100 && Numerator(f, 100) == 0 && Error(f, 0, 100) == f;
    assert Candidates[9] == 1001 && Numerator(f, 1001) == 2 && Error(f, 2, 1001) == 1.0 / 1001000.0;
    assert Candidates[10] == 1000 && Numerator(f, 1000) == 2 && Error(f, 2, 1000) == 1.0 / 1001000.0;
    assert forall k :: 0 <= k < 9 ==> CandidateNum(f, k) == 0 && CandidateError(f, k) == f;
  }

  /** The frame rates kept from the session's list of (num, den) pairs: pairs
      with a positive denominator, as num/den, in list order. */
  function FrameRates(rates: seq<(int, int)>): (r: seq<real>)
    ensures |r| <= |rates|
  {
    if rates == [] then []
    else
      var last := rates[|rates| - 1];
      FrameRates(rates[..|rates| - 1]) + (if last.1 > 0 then [last.0 as real / last.1 as real] else [])
  }

  /** Filtering works list piece by list piece, so the order of the session's list is kept. */
  lemma {:induction false} FrameRatesAppend(a: seq<(int, int)>, b: seq<(int, int)>)
    ensures FrameRates(a + b) == FrameRates(a) + FrameRates(b)
    decreases |b|
  {
    if b == [] {
      assert a + b == a;
    } else {
      var b' := b[..|b| - 1];
      assert (a + b)[..|a + b| - 1] == a + b';
      assert (a + b)[|a + b| - 1] == b[|b| - 1];
      FrameRatesAppend(a, b');
    }
  }

  /** A rate is reported exactly when some pair with a positive denominator gives it. */
  lemma {:induction false} FrameRatesMembership(rates: seq<(int, int)>, x: real)
    ensures x in FrameRates(rates) <==>
      exists i :: 0 <= i < |rates| && rates[i].1 > 0 && x == rates[i].0 as real / rates[i].1 as real
    decreases |rates|
  {
    if rates != [] {
      var front := rates[..|rates| - 1];
      FrameRatesMembership(front, x);
      forall i | 0 <= i < |front| ensures front[i] == rates[i] { }
    }
  }

  /** When every denominator is positive nothing is dropped and the i-th rate is the i-th quotient. */
  lemma {:induction false} FrameRatesAllPositive(rates: seq<(int, int)>)
    requires forall i :: 0 <= i < |rates| ==> rates[i].1 > 0
    ensures |FrameRates(rates)| == |rates|
    ensures forall i :: 0 <= i < |rates| ==>
      FrameRates(rates)[i] == rates[i].0 as real / rates[i].1 as real
    decreases |rates|
  {
    if rates != [] {
      var front := rates[..|rates| - 1];
      FrameRatesAllPositive(front);
    }
  }

  /** supportedFrameRates: keep and convert the session's reported rates. */
  method SupportedFrameRates(sessionRates: seq<(int, int)>) returns (res: seq<real>)
    ensures res == FrameRates(sessionRates)
  {
    res := [];
    var i := 0;
    while i < |sessionRates|
      invariant 0 <= i <= |sessionRates|
      invariant res == FrameRates(sessionRates[..i])
    {
      var rate := sessionRates[i];
      assert sessionRates[..i + 1][..i] == sessionRates[..i];
      if rate.1 > 0 {
        res := res + [rate.0 as real / rate.1 as real];
      }
      i := i + 1;
    }
    assert sessionRates[..i] == sessionRates;
  }

  datatype Size = Size(width: int, height: int)

  /** The encoder settings this control stores and hands back. */
  datatype VideoEncoderSettings = VideoEncoderSettings(codec: string, resolution: Size, frameRate: real, bitRate: int)

  /** Default-constructed settings: no codec, invalid resolution, no frame rate, no bit rate. */
  const NullSettings := VideoEncoderSettings("", Size(-1, -1), 0.0, -1)

  /** The settings half of the encoder control: the settings in effect and the
      last settings the user chose, plus a count of settingsChanged emissions. */
  class VideoEncoderControl {
    var videoSettings: VideoEncoderSettings
    var userSettings: VideoEncoderSettings
    var settingsChangedCount: nat
    /** Whether the session has overridden the user's choice since it was made or last restored. */
    ghost var overridden: bool

    /** Without an override, the settings in effect are the user's choice. */
    ghost predicate Valid()
      reads this
    {
      !overridden ==> videoSettings == userSettings
    }

    constructor ()
      ensures videoSettings == NullSettings && userSettings == NullSettings
      ensures settingsChangedCount == 0
      ensures !overridden && Valid()
    {
      videoSettings := NullSettings;
      userSettings := NullSettings;
      settingsChangedCount := 0;
      overridden := false;
    }

    /** The settings in effect: the user's choice unless the session has overridden it. */
    function VideoSettings(): (s: VideoEncoderSettings)
      reads this
      ensures Valid() && !overridden ==> s == userSettings
    {
      videoSettings
    }

    /** A user choice: both the settings in effect and the remembered user
        settings become s, and settingsChanged is emitted once. */
    method SetVideoSettings(s: VideoEncoderSettings)
      modifies this
      ensures videoSettings == s && userSettings == s
      ensures settingsChangedCount == old(settingsChangedCount) + 1
      ensures !overridden && Valid()
    {
      videoSettings := s;
      userSettings := s;
      settingsChangedCount := settingsChangedCount + 1;
      overridden := false;
    }

    /** An override by the session: only the settings in effect change, silently. */
    method SetActualVideoSettings(s: VideoEncoderSettings)
      modifies this
      ensures videoSettings == s
      ensures userSettings == old(userSettings)
      ensures settingsChangedCount == old(settingsChangedCount)
      ensures overridden && Valid()
    {
      videoSettings := s;
      overridden := true;
    }

    /** Drop any override: the settings in effect go back to the user's, silently. */
    method ResetActualSettings()
      modifies this
      ensures videoSettings == old(userSettings)
      ensures userSettings == old(userSettings)
      ensures settingsChangedCount == old(settingsChangedCount)
      ensures !overridden && Valid()
    {
      videoSettings := userSettings;
      overridden := false;
    }
  }

  /** After a user choice, any number of overrides followed by a reset give back
      the user's choice, with a single settingsChanged in all. */
  method OverrideThenReset(e: VideoEncoderControl, s: VideoEncoderSettings, overrides: seq<VideoEncoderSettings>)
    modifies e
    ensures e.VideoSettings() == s && e.userSettings == s
    ensures e.settingsChangedCount == old(e.settingsChangedCount) + 1
    ensures !e.overridden && e.Valid()
  {
    e.SetVideoSettings(s);
    var i := 0;
    while i < |overrides|
      invariant 0 <= i <= |overrides|
      invariant e.userSettings == s
      invariant e.settingsChangedCount == old(e.settingsChangedCount) + 1
    {
      e.SetActualVideoSettings(overrides[i]);
      i := i + 1;
    }
    e.ResetActualSettings();
  }
}
