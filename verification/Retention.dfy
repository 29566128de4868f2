/**
 The two parsers of retention periods: `parseRetentionPeriod` for the global setting
 (main.go:39-94) and `parseRetentionDuration` for a label (internal/discovery/discovery.go:229-286).
 Durations are 64-bit nanoseconds.
 */
module Retention {
  import opened Common
  import opened GoStrings
  import Gc

  const HOUR := 3_600_000_000_000
  const DAY := 86_400_000_000_000
  const MAX_DAYS := 106_751

  /** time.ParseDuration, None where it returns an error (its value is then 0). */
  type DurationParser = string -> Option<int>

  /** What is used of it here: "7d" is not a duration, and results fit 64 bits. */
  ghost predicate DurationsOk(parse: DurationParser) {
    && parse("7d") == None
    && forall s :: parse(s).Some? ==> -0x8000_0000_0000_0000 <= parse(s).value < 0x8000_0000_0000_0000
  }

  /** time.Duration(days) * 24 * time.Hour. */
  function Days(n: int): int {
    Wrap64(Wrap64(n * 24) * HOUR)
  }

  predicate HasDaySuffix(s: string) {
    s != "" && s[|s| - 1] == 'd'
  }

  function OrZero(parsed: Option<int>): int {
    if parsed.Some? then parsed.value else 0
  }

  function ParseGlobal(parse: DurationParser, text: string, default: string): int {
    var trimmed := TrimSpace(text);
    var value := if trimmed == "" then default else trimmed;
    var fallback := OrZero(parse(default));
    if parse(value).Some? then
      if parse(value).value < 0 then fallback else parse(value).value
    else
      var suffixed := if HasDaySuffix(value) then Atoi(value[..|value| - 1]) else None;
      if suffixed.Some? then
        if suffixed.value < 0 then fallback else Days(suffixed.value)
      else
        var days := Atoi(value);
        if days.Some? then (if days.value < 0 then fallback else Days(days.value)) else fallback
  }

  function ParseLabel(parse: DurationParser, text: string): int {
    var value := TrimSpace(text);
    if value == "" then 0
    else if parse(value).Some? then
      if parse(value).value < 0 then 0 else parse(value).value
    else if HasDaySuffix(value) then
      var days := Atoi(value[..|value| - 1]);
      if days.Some? then (if days.value < 0 then 0 else Days(days.value)) else 0
    else
      var days := Atoi(value);
      if days.Some? then (if days.value < 0 then 0 else Days(days.value)) else 0
  }

  lemma {:induction false} LabelTrimmed(parse: DurationParser, text: string)
    ensures ParseLabel(parse, TrimSpace(text)) == ParseLabel(parse, text)
  {
    TrimTwice(text);
  }

  lemma {:induction false} DaySuffixIsNoNumber(s: string)
    requires HasDaySuffix(s)
    ensures Atoi(s) == None
  {
    var digits := if s[0] == '-' || s[0] == '+' then s[1..] else s;
    if digits != "" {
      assert digits[|digits| - 1] == 'd';
    }
  }

  /** On every text that is not blank the two parsers agree, since the fallback "7d" is itself unreadable. */
  lemma {:induction false} ParsersAgree(parse: DurationParser, text: string)
    requires DurationsOk(parse) && TrimSpace(text) != ""
    ensures ParseGlobal(parse, text, "7d") == ParseLabel(parse, text)
  {
    var value := TrimSpace(text);
    if HasDaySuffix(value) {
      DaySuffixIsNoNumber(value);
    }
  }

  /** A blank global setting does mean seven days, a blank label none of its own. */
  lemma {:induction false} BlankText(parse: DurationParser, text: string)
    requires DurationsOk(parse) && TrimSpace(text) == ""
    ensures ParseGlobal(parse, text, "7d") == 7 * DAY && ParseLabel(parse, text) == 0
  {
    assert "7d"[..1] == "7" && "7"[..0] == "";
    assert DigitsValue("7") == 7;
    assert Atoi("7") == Some(7);
  }

  lemma {:induction false} WrapSmall(x: int)
    ensures -0x8000_0000_0000_0000 <= x < 0x8000_0000_0000_0000 <==> Wrap64(x) == x
  {
  }

  /** A number of days is converted exactly if and only if it is at most 106751. */
  lemma {:induction false} DaysExactIff(n: int)
    requires 0 <= n < 0x8000_0000_0000_0000
    ensures Days(n) == n * DAY <==> n <= MAX_DAYS
  {
    if n <= MAX_DAYS {
      WrapSmall(n * 24);
      WrapSmall(n * 24 * HOUR);
    }
  }

  /** Past that it wraps, and not always to something negative: 213504 days become 25 minutes and 26 seconds. */
  lemma {:induction false} LongRetentionCanBecomeShort(parse: DurationParser, text: string)
    requires text == "213504d" && parse(text) == None
    ensures ParseLabel(parse, text) == ParseGlobal(parse, text, "7d") == 1_526_290_448_384
    ensures 1_526_290_448_384 < 26 * 60 * 1_000_000_000 && Days(106_752) < 0
  {
    AlreadyTrimmed(text);
    DaysLabel(parse, text);
    DaysWrap();
  }

  lemma {:induction false} DaysWrap()
    ensures Days(213_504) == 1_526_290_448_384 && Days(106_752) < 0
  {
  }

  lemma {:induction false} AlreadyTrimmed(s: string)
    requires s != "" && !IsSpace(s[0]) && !IsSpace(s[|s| - 1])
    ensures TrimSpace(s) == s
  {
  }

  lemma {:induction false} DaysLabel(parse: DurationParser, s: string)
    requires TrimSpace(s) == s && parse(s) == None && |s| == 7 && s[6] == 'd'
    requires s[0] == '2' && s[1] == '1' && s[2] == '3' && s[3] == '5' && s[4] == '0' && s[5] == '4'
    ensures ParseLabel(parse, s) == ParseGlobal(parse, s, "7d") == Days(213_504)
  {
    var d := s[..6];
    SixDigits(d);
  }

  lemma {:induction false} SixDigits(d: string)
    requires |d| == 6
    requires d[0] == '2' && d[1] == '1' && d[2] == '3' && d[3] == '5' && d[4] == '0' && d[5] == '4'
    ensures Atoi(d) == Some(213_504)
  {
    DigitsUpTo(d, 0);
    DigitsUpTo(d, 1);
    DigitsUpTo(d, 2);
    DigitsUpTo(d, 3);
    DigitsUpTo(d, 4);
    DigitsUpTo(d, 5);
    assert d[..0] == "" && d[..6] == d;
  }

  lemma {:induction false} DigitsUpTo(d: string, k: nat)
    requires k < |d| && AllDigits(d)
    ensures DigitsValue(d[..k + 1]) == DigitsValue(d[..k]) * 10 + (d[k] - '0') as int
  {
    assert d[..k + 1][..k] == d[..k];
  }

  /** What a period means: a duration is itself, n and "nd" are n days. */
  lemma {:induction false} DurationsAreTaken(parse: DurationParser, text: string)
    requires TrimSpace(text) != "" && parse(TrimSpace(text)).Some? && parse(TrimSpace(text)).value >= 0
    ensures ParseLabel(parse, text) == ParseGlobal(parse, text, "7d") == parse(TrimSpace(text)).value
  {
  }

  lemma {:induction false} NumbersAreDays(parse: DurationParser, digits: string)
    requires AllDigits(digits) && DigitsValue(digits) < 0x8000_0000_0000_0000
    requires parse(digits) == None && parse(digits + "d") == None
    ensures ParseLabel(parse, digits) == ParseGlobal(parse, digits, "7d") == Days(DigitsValue(digits))
    ensures ParseLabel(parse, digits + "d") == ParseGlobal(parse, digits + "d", "7d") == Days(DigitsValue(digits))
  {
    var suffixed := digits + "d";
    AlreadyTrimmed(digits);
    AlreadyTrimmed(suffixed);
    assert suffixed[..|suffixed| - 1] == digits;
    assert Atoi(digits) == Some(DigitsValue(digits));
  }

  /** Readable by neither rule, or negative. */
  predicate Unusable(parse: DurationParser, value: string) {
    if parse(value).Some? then parse(value).value < 0
    else
      var days := if HasDaySuffix(value) then Atoi(value[..|value| - 1]) else Atoi(value);
      days.None? || days.value < 0
  }

  /**
   Any negative or malformed text gives 0 from either parser. With such a global setting, garbage
   collection is active exactly for the specs whose own label gives a positive period.
   */
  lemma {:induction false} UnusableMeansNoRetention(parse: DurationParser, text: string, ownLabel: string)
    requires DurationsOk(parse) && TrimSpace(text) != "" && Unusable(parse, TrimSpace(text))
    ensures ParseGlobal(parse, text, "7d") == 0 && ParseLabel(parse, text) == 0
    ensures Gc.EffectiveRetention(ParseLabel(parse, ownLabel), ParseGlobal(parse, text, "7d")) > 0
      <==> ParseLabel(parse, ownLabel) > 0
  {
    ParsersAgree(parse, text);
  }

  /** So such a pass touches nothing for a spec without a positive period of its own, whatever is listed. */
  method PassWithUnusableGlobal(parse: DurationParser, text: string, spec: Spec, store: Gc.ObjectStore, dryRun: bool,
                                listed: Option<seq<Gc.Meta>>, now: int, cancelAt: nat, works: nat -> bool)
    returns (report: Gc.Report)
    requires DurationsOk(parse) && TrimSpace(text) != "" && Unusable(parse, TrimSpace(text))
    requires spec.retention <= 0
    modifies store
    ensures store.objects == old(store.objects)
    ensures report == Gc.Report(Gc.NoRetention, 0, 0, [])
  {
    UnusableMeansNoRetention(parse, text, "");
    var runner := new Gc.Runner(spec, store, ParseGlobal(parse, text, "7d"), dryRun);
    report := runner.RunGC(listed, now, cancelAt, works);
  }
}
