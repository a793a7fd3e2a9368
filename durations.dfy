/** The clock-style duration text shared by the schedule countdown
    (`formatDuration` in `src/domain/schedule/timeline.ts`) and the dashboard and
    options pages (`formatSeconds`): "H:MM:SS" from one hour on, "M:SS" below. */
module Durations {
  import opened Base

  /** Hours, minutes and seconds of `n` whole seconds. */
  function Hours(n: nat): nat { n / 3600 }
  function MinutesPart(n: nat): nat { (n % 3600) / 60 }
  function SecondsPart(n: nat): nat { n % 60 }

  /** The template literal both formatters return, for `n` already clamped and floored. */
  function FormatHms(n: nat): (r: string)
    ensures |r| >= 4
  {
    if Hours(n) > 0 then NatToString(Hours(n)) + ":" + Pad2(MinutesPart(n)) + ":" + Pad2(SecondsPart(n))
    else NatToString(MinutesPart(n)) + ":" + Pad2(SecondsPart(n))
  }

  /** Reads a clock text back: "H:MM:SS" or "M:SS", digits only, two-digit fields
      after the first; anything else is `None`. */
  function ReadHms(text: string): Option<nat>
  {
    ReadFields(Split(text, ':'))
  }

  function ReadFields(parts: seq<string>): Option<nat>
  {
    if |parts| == 3 && AllDigits(parts[0]) && AllDigits(parts[1]) && AllDigits(parts[2])
       && |parts[1]| == 2 && |parts[2]| == 2
    then Some(DigitsValue(parts[0]) * 3600 + DigitsValue(parts[1]) * 60 + DigitsValue(parts[2]))
    else if |parts| == 2 && AllDigits(parts[0]) && AllDigits(parts[1]) && |parts[1]| == 2
    then Some(DigitsValue(parts[0]) * 60 + DigitsValue(parts[1]))
    else None
  }

  lemma DigitsHoldNoColon(s: string)
    requires AllDigits(s)
    ensures forall k :: 0 <= k < |s| ==> s[k] != ':'
  {
  }

  lemma SplitShort(m: string, s: string)
    requires AllDigits(m) && AllDigits(s)
    ensures Split(m + ":" + s, ':') == [m, s]
  {
    DigitsHoldNoColon(m);
    DigitsHoldNoColon(s);
    SplitNoSep(s, ':');
    assert m + ":" + s == m + [':'] + s;
    SplitJoin(m, ':', s);
  }

  lemma SplitLong(h: string, m: string, s: string)
    requires AllDigits(h) && AllDigits(m) && AllDigits(s)
    ensures Split(h + ":" + m + ":" + s, ':') == [h, m, s]
  {
    SplitShort(m, s);
    DigitsHoldNoColon(h);
    assert h + ":" + m + ":" + s == h + [':'] + (m + ":" + s);
    SplitJoin(h, ':', m + ":" + s);
  }

  lemma LongFields(h: string, m: string, s: string)
    requires AllDigits(h) && AllDigits(m) && AllDigits(s) && |m| == 2 && |s| == 2
    ensures ReadFields([h, m, s]) == Some(DigitsValue(h) * 3600 + DigitsValue(m) * 60 + DigitsValue(s))
  {
  }

  lemma ShortFields(m: string, s: string)
    requires AllDigits(m) && AllDigits(s) && |s| == 2
    ensures ReadFields([m, s]) == Some(DigitsValue(m) * 60 + DigitsValue(s))
  {
  }

  /** The three fields of a long clock text read back as their values. */
  lemma ReadLong(h: string, m: string, s: string)
    requires AllDigits(h) && AllDigits(m) && AllDigits(s) && |m| == 2 && |s| == 2
    ensures ReadHms(h + ":" + m + ":" + s) == Some(DigitsValue(h) * 3600 + DigitsValue(m) * 60 + DigitsValue(s))
  {
    SplitLong(h, m, s);
    LongFields(h, m, s);
  }

  /** The two fields of a short clock text read back as their values. */
  lemma ReadShort(m: string, s: string)
    requires AllDigits(m) && AllDigits(s) && |s| == 2
    ensures ReadHms(m + ":" + s) == Some(DigitsValue(m) * 60 + DigitsValue(s))
  {
    SplitShort(m, s);
    ShortFields(m, s);
  }

  lemma ReadLongOf(h: nat, m: nat, s: nat)
    requires m < 100 && s < 100
    ensures ReadHms(NatToString(h) + ":" + Pad2(m) + ":" + Pad2(s)) == Some(h * 3600 + m * 60 + s)
  {
    var a, b, c := NatToString(h), Pad2(m), Pad2(s);
    assert DigitsValue(a) == h by { NatToStringValue(h); }
    assert DigitsValue(b) == m by { Pad2Value(m); }
    assert DigitsValue(c) == s by { Pad2Value(s); }
    ReadLong(a, b, c);
  }

  lemma ReadShortOf(m: nat, s: nat)
    requires s < 100
    ensures ReadHms(NatToString(m) + ":" + Pad2(s)) == Some(m * 60 + s)
  {
    var b, c := NatToString(m), Pad2(s);
    assert DigitsValue(b) == m by { NatToStringValue(m); }
    assert DigitsValue(c) == s by { Pad2Value(s); }
    ReadShort(b, c);
    assert ReadHms(b + ":" + c) == Some(m * 60 + s);
  }

  lemma HmsParts(n: nat)
    ensures Hours(n) * 3600 + MinutesPart(n) * 60 + SecondsPart(n) == n
    ensures MinutesPart(n) < 60 && SecondsPart(n) < 60
    ensures Hours(n) > 0 <==> n >= 3600
  {
  }

  /** Reading the text back gives the number of seconds it was made from. */
  lemma FormatHmsReadBack(n: nat)
    ensures ReadHms(FormatHms(n)) == Some(n)
  {
    var h, m, s := Hours(n), MinutesPart(n), SecondsPart(n);
    HmsParts(n);
    var text := FormatHms(n);
    if h > 0 {
      assert text == NatToString(h) + ":" + Pad2(m) + ":" + Pad2(s);
      ReadLongOf(h, m, s);
    } else {
      assert text == NatToString(m) + ":" + Pad2(s);
      ReadShortOf(m, s);
    }
  }

  /** Two durations print alike only when they are the same number of seconds. */
  lemma FormatHmsInjective(a: nat, b: nat)
    requires FormatHms(a) == FormatHms(b)
    ensures a == b
  {
    FormatHmsReadBack(a);
    FormatHmsReadBack(b);
  }

  /** The long form "H:MM:SS" is used exactly from one hour on. */
  lemma FormatHmsLongForm(n: nat)
    ensures n >= 3600 <==> exists k :: 0 <= k < |FormatHms(n)| - 3 && FormatHms(n)[k] == ':'
  {
    HmsParts(n);
    var r := FormatHms(n);
    var h, m, s := Hours(n), MinutesPart(n), SecondsPart(n);
    Pad2Value(s);
    if n >= 3600 {
      var k := |NatToString(h)|;
      assert r == NatToString(h) + ":" + Pad2(m) + ":" + Pad2(s);
      assert r[k] == ':';
    } else {
      assert r == NatToString(m) + ":" + Pad2(s);
      DigitsHoldNoColon(NatToString(m));
      forall k | 0 <= k < |r| - 3
        ensures r[k] != ':'
      {
        assert r[k] == NatToString(m)[k];
      }
    }
  }

  /** `formatSeconds(totalSeconds)`: floored, negatives shown as zero. */
  function FormatSeconds(totalSeconds: real): (r: string)
    ensures ReadHms(r) == Some(Max(0, totalSeconds.Floor) as nat)
  {
    var n := Max(0, totalSeconds.Floor) as nat;
    FormatHmsReadBack(n);
    FormatHms(n)
  }
}
