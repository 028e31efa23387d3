/** How many pipelines and batches may run at a time, and whether the loops that run them can end. */
module Concurrency {
  import opened Results
  import opened Numbers
  import opened Values
  import opened Templates

  datatype Kind = Pipeline | Batch

  /** The stored limits as numbers; one that is missing or null is none. */
  datatype Stored = Stored(pipeline: Option<Numeric>, batch: Option<Numeric>)

  /** The environment variables. */
  datatype Variables = Variables(pipeline: Option<string>, batch: Option<string>)

  const LIMIT_CAP := 20

  /** The digits a text starts with. */
  function LeadingDigits(s: string): (d: string)
    ensures d == "" || AllDigits(d)
  {
    if s != "" && '0' <= s[0] <= '9' then [s[0]] + LeadingDigits(s[1..]) else ""
  }

  predicate IsSign(s: string) {
    s != "" && (s[0] == '-' || s[0] == '+')
  }

  function Unsigned(s: string): string {
    if IsSign(s) then s[1..] else s
  }

  /** `parseInt(text, 10)`. */
  function ParseInt(text: string): Numeric {
    var trimmed := TrimLeft(text);
    var digits := LeadingDigits(Unsigned(trimmed));
    if digits == "" then NaN
    else if IsSign(trimmed) && trimmed[0] == '-' then Finite(-(DigitsValue(digits) as real))
    else Finite(DigitsValue(digits) as real)
  }

  /** `count < limit`. */
  predicate Below(count: nat, limit: Numeric) {
    match limit
    case Finite(v) => count as real < v
    case Infinite(negative) => !negative
    case NaN => false
  }

  /** `Math.min(n, 20)`. */
  function Capped(n: Numeric): Numeric {
    match n
    case Finite(v) => if v < LIMIT_CAP as real then n else Finite(LIMIT_CAP as real)
    case Infinite(negative) => if negative then n else Finite(LIMIT_CAP as real)
    case NaN => NaN
  }

  function DefaultText(kind: Kind): string {
    if kind.Pipeline? then "5" else "3"
  }

  function Variable(kind: Kind, vars: Variables): Option<string> {
    if kind.Pipeline? then vars.pipeline else vars.batch
  }

  function StoredLimit(kind: Kind, stored: Option<Stored>): Option<Numeric> {
    if stored.None? then None else if kind.Pipeline? then stored.value.pipeline else stored.value.batch
  }

  /** `loadD1tor2Config`; nothing is stored either if KV is missing, fails or holds no configuration. */
  function Loaded(kind: Kind, stored: Option<Stored>, vars: Variables): Numeric {
    var v := Variable(kind, vars);
    if StoredLimit(kind, stored).Some? then StoredLimit(kind, stored).value
    else ParseInt(if v.Some? && v.value != "" then v.value else DefaultText(kind))
  }

  /** `getConcurrencyLimit`, which every run calls after loading. */
  function ConcurrencyLimit(kind: Kind, stored: Option<Stored>, vars: Variables): Numeric {
    Capped(Loaded(kind, stored, vars))
  }

  predicate SomeNonzero(d: string) {
    exists c <- d :: c != '0'
  }

  /** After white space and perhaps a plus the text goes on with digits that are not all zero. */
  predicate SpellsPositive(text: string) {
    var trimmed := TrimLeft(text);
    !(IsSign(trimmed) && trimmed[0] == '-') && SomeNonzero(LeadingDigits(Unsigned(trimmed)))
  }

  lemma NonzeroLast(d: string, rest: string, last: char)
    requires d == rest + [last]
    ensures SomeNonzero(d) <==> SomeNonzero(rest) || last != '0'
  {
    assert last in d;
    if SomeNonzero(rest) {
      var c :| c in rest && c != '0';
      assert c in d;
    }
    if SomeNonzero(d) {
      var c :| c in d && c != '0';
      assert c in rest || c == last;
    }
  }

  lemma {:induction false} PositiveDigits(d: string)
    requires d == "" || AllDigits(d)
    ensures DigitsValue(d) > 0 <==> SomeNonzero(d)
  {
    if d != "" {
      NonzeroLast(d, d[..|d| - 1], d[|d| - 1]);
      PositiveDigits(d[..|d| - 1]);
    }
  }

  lemma ParseIntPositive(text: string)
    ensures Below(0, ParseInt(text)) <==> SpellsPositive(text)
  {
    PositiveDigits(LeadingDigits(Unsigned(TrimLeft(text))));
  }

  /** The settings let work start: the stored limit if there is one, or else the variable unless it is unset or
      empty. */
  predicate SettingsStartWork(kind: Kind, stored: Option<Stored>, vars: Variables) {
    match StoredLimit(kind, stored)
    case Some(n) => n == Infinite(false) || (n.Finite? && n.v > 0.0)
    case None =>
      var v := Variable(kind, vars);
      v == None || v == Some("") || SpellsPositive(v.value)
  }

  /** At most 20 run at a time, and one can start exactly if the settings say so. */
  lemma LimitStartsWork(kind: Kind, stored: Option<Stored>, vars: Variables)
    ensures !Below(LIMIT_CAP, ConcurrencyLimit(kind, stored, vars))
    ensures Below(0, ConcurrencyLimit(kind, stored, vars)) <==> SettingsStartWork(kind, stored, vars)
  {
    if StoredLimit(kind, stored).None? {
      var v := Variable(kind, vars);
      if v == None || v == Some("") {
        DefaultStarts(kind);
      } else {
        ParseIntPositive(v.value);
      }
    }
  }

  lemma DefaultStarts(kind: Kind)
    ensures Below(0, ParseInt(DefaultText(kind)))
  {
    var text := DefaultText(kind);
    assert text[1..] == "" && TrimLeft(text) == text && LeadingDigits(text) == text;
    assert text[..0] == "";
  }

  /** A loop of the archive: work that waits to be started, and work that is running. */
  datatype Loop = Loop(waiting: nat, running: nat)

  predicate Ended(s: Loop) {
    s.waiting == 0 && s.running == 0
  }

  /** One step of a loop that has not ended: work is started, or found to be missing, as long as the limit allows it;
      otherwise something settles; and if nothing runs, the loop goes round without doing anything. */
  predicate Step(limit: Numeric, s: Loop, t: Loop) {
    !Ended(s)
    && if s.waiting > 0 && Below(s.running, limit) then
         t == Loop(s.waiting - 1, s.running + 1) || t == Loop(s.waiting - 1, s.running)
       else if s.running > 0 then t == Loop(s.waiting, s.running - 1)
       else t == s
  }

  ghost predicate IsRun(limit: Numeric, waiting: nat, run: seq<Loop>) {
    && run != [] && run[0] == Loop(waiting, 0)
    && forall k | 0 < k < |run| :: Step(limit, run[k - 1], run[k])
  }

  predicate EndsRun(run: seq<Loop>) {
    run != [] && Ended(run[|run| - 1])
  }

  lemma {:induction false} StartedRunShrinks(limit: Numeric, waiting: nat, run: seq<Loop>)
    requires Below(0, limit) && IsRun(limit, waiting, run)
    ensures 2 * run[|run| - 1].waiting + run[|run| - 1].running + |run| <= 2 * waiting + 1
  {
    if |run| > 1 {
      var before := run[..|run| - 1];
      StartedRunShrinks(limit, waiting, before);
      assert Step(limit, run[|run| - 2], run[|run| - 1]);
    }
  }

  lemma {:induction false} StuckRunStays(limit: Numeric, waiting: nat, run: seq<Loop>)
    requires !Below(0, limit) && IsRun(limit, waiting, run)
    ensures run[|run| - 1] == Loop(waiting, 0)
  {
    if |run| > 1 {
      StuckRunStays(limit, waiting, run[..|run| - 1]);
      assert Step(limit, run[|run| - 2], run[|run| - 1]);
    }
  }

  /** A run of any length that does nothing, or one that starts and settles one piece of work after the other. */
  lemma {:induction false} LongRun(limit: Numeric, waiting: nat, length: nat) returns (run: seq<Loop>)
    requires waiting > 0 && !Below(0, limit) && length > 0
    ensures IsRun(limit, waiting, run) && |run| == length
  {
    run := [Loop(waiting, 0)];
    if length > 1 {
      run := LongRun(limit, waiting, length - 1);
      StuckRunStays(limit, waiting, run);
      run := run + [Loop(waiting, 0)];
    }
  }

  lemma {:induction false} EndingRun(limit: Numeric, waiting: nat) returns (run: seq<Loop>)
    requires Below(0, limit) || waiting == 0
    ensures IsRun(limit, waiting, run) && EndsRun(run)
  {
    run := [Loop(waiting, 0)];
    if waiting > 0 {
      var later := EndingRun(limit, waiting - 1);
      var t := Loop(waiting - 1, 0);
      assert Step(limit, run[0], t);
      run := run + later;
      forall k | 0 < k < |run| ensures Step(limit, run[k - 1], run[k]) {
        if k > 1 {
          assert Step(limit, later[k - 2], later[k - 1]);
        }
      }
    }
  }

  /** A loop can reach its end, and never runs for long, exactly if the limit is positive or there is nothing to do. */
  lemma {:induction false} LoopEndsIff(limit: Numeric, waiting: nat)
    ensures (exists run :: IsRun(limit, waiting, run) && EndsRun(run)) <==> Below(0, limit) || waiting == 0
    ensures (forall run | IsRun(limit, waiting, run) :: |run| <= 2 * waiting + 1) <==> Below(0, limit) || waiting == 0
  {
    if Below(0, limit) || waiting == 0 {
      var run := EndingRun(limit, waiting);
      forall run | IsRun(limit, waiting, run) ensures |run| <= 2 * waiting + 1 {
        if waiting == 0 {
          assert |run| > 1 ==> Step(limit, run[0], run[1]);
        } else {
          StartedRunShrinks(limit, waiting, run);
        }
      }
    } else {
      forall run | IsRun(limit, waiting, run) ensures !EndsRun(run) {
        StuckRunStays(limit, waiting, run);
      }
      var run := LongRun(limit, waiting, 2 * waiting + 2);
    }
  }

  // The values of the limits

  /** `Math.min(value, 20)`. */
  function AtMostTwenty(v: real): Numeric {
    Finite(if v > 20.0 then 20.0 else v)
  }

  lemma {:induction false} BlankIsSkipped(blank: string, s: string)
    requires (forall i | 0 <= i < |blank| :: IsTrimmed(blank[i])) && (s != "" ==> !IsTrimmed(s[0]))
    ensures TrimLeft(blank + s) == s
  {
    if blank == "" {
      assert blank + s == s;
    } else {
      assert (blank + s)[1..] == blank[1..] + s;
      BlankIsSkipped(blank[1..], s);
    }
  }

  lemma {:induction false} DigitsAreLeading(digits: string, rest: string)
    requires (forall i | 0 <= i < |digits| :: '0' <= digits[i] <= '9') && (rest != "" ==> !('0' <= rest[0] <= '9'))
    ensures LeadingDigits(digits + rest) == digits
  {
    if digits == "" {
      assert digits + rest == rest;
    } else {
      assert (digits + rest)[1..] == digits[1..] + rest;
      DigitsAreLeading(digits[1..], rest);
    }
  }

  /** White space, perhaps a sign, the digits of a number, and anything that is no digit. */
  lemma {:induction false} ParseIntLaw(blank: string, sign: string, n: nat, rest: string)
    requires (forall i | 0 <= i < |blank| :: IsTrimmed(blank[i])) && sign in {"", "+", "-"}
    requires rest != "" ==> !('0' <= rest[0] <= '9')
    ensures ParseInt(blank + (sign + (Decimal(n) + rest))) == Finite(if sign == "-" then -(n as real) else n as real)
  {
    var digits := Decimal(n);
    var s := sign + (digits + rest);
    assert s[0] == (if sign == "" then digits[0] else sign[0]);
    BlankIsSkipped(blank, s);
    DigitsAreLeading(digits, rest);
    assert Unsigned(s) == digits + rest;
    DecimalInverts(n);
  }

  /** The limit of a run: the stored number, or the one the variable starts with, or 5 pipelines and 3 batches, and 20
      at most. */
  lemma {:induction false} LimitLaw(kind: Kind, stored: Option<Stored>, vars: Variables, n: nat, rest: string)
    requires rest != "" ==> !('0' <= rest[0] <= '9')
    ensures var (limit, number) := (ConcurrencyLimit(kind, stored, vars), StoredLimit(kind, stored));
            var text := if kind.Pipeline? then vars.pipeline else vars.batch;
            && (number.Some? && number.value.Finite? ==> limit == AtMostTwenty(number.value.v))
            && (number.None? && (text == None || text == Some("")) ==>
                  limit == Finite(if kind.Pipeline? then 5.0 else 3.0))
            && (number.None? && text == Some(Decimal(n) + rest) ==> limit == AtMostTwenty(n as real))
  {
    ParseIntLaw("", "", n, rest);
    assert "" + ("" + (Decimal(n) + rest)) == Decimal(n) + rest;
    ParseIntLaw("", "", 5, "");
    ParseIntLaw("", "", 3, "");
    assert Decimal(5) == "5" && Decimal(3) == "3";
    assert "" + ("" + ("5" + "")) == "5" && "" + ("" + ("3" + "")) == "3";
  }

  /** The limits of pipelines and batches are stored and set apart. */
  lemma KindsApart(pipeline: Option<Numeric>, batch: Option<Numeric>)
    ensures StoredLimit(Pipeline, Some(Stored(pipeline, batch))) == pipeline
    ensures StoredLimit(Batch, Some(Stored(pipeline, batch))) == batch
    ensures StoredLimit(Pipeline, None) == None && StoredLimit(Batch, None) == None
  {
  }
}
