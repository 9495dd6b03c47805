/** `timeToSeconds`: reads "mm:ss" or "h:mm:ss" as a number of seconds. */
module TimeParse {
  import opened Wrappers
  import Py

  /** `correctForm`: a ':' three characters from the end and, when the text
      has six characters or more, another one six from the end. That is,
      the text is its minutes and seconds fields (and, from six characters
      on, its hours field) joined by ':'. */
  predicate ProperForm(t: string): (b: bool)
    requires |t| >= 3
    ensures b <==> t == (if |t| >= 6 then HoursField(t) + ":" else "") + MinutesField(t) + ":" + SecondsField(t)
  {
    t[|t| - 3] == ':' && (|t| >= 6 ==> t[|t| - 6] == ':')
  }

  /** `t[-2:]`, `t[-5:-3]` and `t[:-6]`. */
  function SecondsField(t: string): string
  {
    Py.Slice(t, -2, |t|)
  }

  function MinutesField(t: string): string
  {
    Py.Slice(t, -5, -3)
  }

  function HoursField(t: string): string
  {
    Py.Slice(t, 0, -6)
  }

  /** The fields that `int(...)` is applied to are digit strings, so the
      conversions do not raise. */
  predicate FieldsAreNumbers(t: string)
  {
    && Py.IsDigits(SecondsField(t))
    && Py.IsDigits(MinutesField(t))
    && (|t| >= 6 ==> Py.IsDigits(HoursField(t)))
  }

  /** Returns `None` for a non-string or a text of the wrong shape, and
      otherwise the seconds, plus 60 times the minutes, plus 3600 times the
      hours when there are six characters or more. */
  method TimeToSeconds(t: Py.Object) returns (r: Option<nat>)
    requires t.Str? ==> |t.s| >= 3 && (ProperForm(t.s) ==> FieldsAreNumbers(t.s))
    ensures t.NotStr? ==> r == None
    ensures t.Str? ==> (r.Some? <==> ProperForm(t.s))
    ensures r.Some? ==>
      r.value == Py.ParseDigits(SecondsField(t.s)) + 60 * Py.ParseDigits(MinutesField(t.s))
        + (if |t.s| >= 6 then 3600 * Py.ParseDigits(HoursField(t.s)) else 0)
  {
    if t.NotStr? {
      return None;
    }
    var s := t.s;
    var correctForm := true;
    var hours := false;
    if s[|s| - 3] != ':' {
      correctForm := false;
    }
    if |s| >= 6 {
      if s[|s| - 6] == ':' {
        hours := true;
      } else {
        correctForm := false;
      }
    }
    if !correctForm {
      return None;
    }
    var seconds := 0;
    seconds := seconds + Py.ParseDigits(SecondsField(s));
    seconds := seconds + 60 * Py.ParseDigits(MinutesField(s));
    if hours {
      seconds := seconds + 3600 * Py.ParseDigits(HoursField(s));
    }
    return Some(seconds);
  }

  /** "mm:ss" with zero-padded minutes and seconds. */
  function MinSec(m: nat, s: nat): string
    requires m < 100 && s < 60
  {
    Py.Pad2(m) + ":" + Py.Pad2(s)
  }

  /** "h:mm:ss" with `str(h)` hours and zero-padded minutes and seconds. */
  function HourMinSec(h: nat, m: nat, s: nat): string
    requires m < 60 && s < 60
  {
    Py.Digits(h) + ":" + Py.Pad2(m) + ":" + Py.Pad2(s)
  }

  /** A rendered "mm:ss" has the proper shape and its fields read back as
      the minutes and seconds it was made of. */
  lemma MinSecFields(m: nat, s: nat)
    requires m < 100 && s < 60
    ensures var t := MinSec(m, s);
      && |t| == 5
      && ProperForm(t)
      && FieldsAreNumbers(t)
      && Py.ParseDigits(SecondsField(t)) == s
      && Py.ParseDigits(MinutesField(t)) == m
  {
    var t := MinSec(m, s);
    assert SecondsField(t) == Py.Pad2(s);
    assert MinutesField(t) == Py.Pad2(m);
    Py.ParseDigitsOfPad2(m);
    Py.ParseDigitsOfPad2(s);
  }

  /** A rendered "h:mm:ss" has the proper shape and its fields read back as
      the hours, minutes and seconds it was made of. */
  lemma HourMinSecFields(h: nat, m: nat, s: nat)
    requires m < 60 && s < 60
    ensures var t := HourMinSec(h, m, s);
      && |t| >= 7
      && ProperForm(t)
      && FieldsAreNumbers(t)
      && Py.ParseDigits(SecondsField(t)) == s
      && Py.ParseDigits(MinutesField(t)) == m
      && Py.ParseDigits(HoursField(t)) == h
  {
    var t := HourMinSec(h, m, s);
    var d := Py.Digits(h);
    assert SecondsField(t) == Py.Pad2(s);
    assert MinutesField(t) == Py.Pad2(m);
    assert HoursField(t) == d;
    Py.ParseDigitsOfPad2(m);
    Py.ParseDigitsOfPad2(s);
    Py.ParseDigitsOfDigits(h);
  }

  /** `timeToSeconds` reads a rendered "h:mm:ss" back as its number of seconds. */
  method SecondsOfHourMinSec(h: nat, m: nat, s: nat) returns (r: Option<nat>)
    requires m < 60 && s < 60
    ensures r == Some(3600 * h + 60 * m + s)
  {
    HourMinSecFields(h, m, s);
    r := TimeToSeconds(Py.Str(HourMinSec(h, m, s)));
  }

  /** `timeToSeconds` reads a rendered "mm:ss" back as its number of seconds. */
  method SecondsOfMinSec(m: nat, s: nat) returns (r: Option<nat>)
    requires m < 100 && s < 60
    ensures r == Some(60 * m + s)
  {
    MinSecFields(m, s);
    r := TimeToSeconds(Py.Str(MinSec(m, s)));
  }
}
