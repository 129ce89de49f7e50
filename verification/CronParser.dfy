/** The five-field cron parser, its documented grammar, and the public entry point. */
module CronParser {
  import opened Prelude
  import opened Text
  import opened Division
  import opened Numerals
  import opened CronSearch
  import CronYear

  datatype CronError = FieldCount | BadStep(part: string) | BadRange(part: string) | NoMatch

  // The values lo, lo + step, ... up to hi.
  datatype Progression = Progression(lo: int, hi: int, step: int)

  ghost predicate Within(g: Progression, min: int, max: int) {
    min <= g.lo <= g.hi <= max && g.step > 0
  }

  ghost function Interval(a: int, b: int): (r: set<int>)
    ensures forall v :: v in r <==> a <= v <= b
    decreases b - a
  {
    if a > b then {} else {a} + Interval(a + 1, b)
  }

  ghost function Members(g: Progression): set<int>
    requires g.step > 0
  {
    set v | v in Interval(g.lo, g.hi) && (v - g.lo) % g.step == 0
  }

  lemma FirstIsMember(g: Progression)
    requires g.step > 0 && g.lo <= g.hi
    ensures g.lo in Members(g)
  {
    DivisionIsUnique(0, g.step, 0, 0);
  }

  // ---- what one part and one field of text denote -------------------------

  ghost function StepOf(part: string): Option<nat> {
    var slash := IndexOf(part, '/');
    if slash == -1 then Some(1) else Number(part[slash + 1..])
  }

  // What stands before the slash.
  function RangeText(part: string): string {
    var slash := IndexOf(part, '/');
    if slash == -1 then part else part[..slash]
  }

  ghost function EndsOf(range: string, min: nat, max: nat): (Option<nat>, Option<nat>) {
    if range == "*" then (Some(min), Some(max))
    else if '-' in range then (Number(Split(range, '-')[0]), Number(Split(range, '-')[1]))
    else (Number(range), Number(range))
  }

  ghost function RangeOf(part: string, min: nat, max: nat): (Option<nat>, Option<nat>) {
    EndsOf(RangeText(part), min, max)
  }

  // The verdict on a step and two ends.
  function Judge(part: string, min: nat, max: nat, step: Option<nat>, lo: Option<nat>, hi: Option<nat>)
    : (r: Result<Progression, CronError>)
    ensures r.Ok? ==> Within(r.value, min, max)
    ensures r.Ok? <==> && step.Some? && step.value > 0 && lo.Some? && hi.Some? && min <= lo.value <= hi.value <= max
  {
    if step.None? || step.value == 0 then Err(BadStep(part))
    else if lo.None? || hi.None? || lo.value < min || hi.value > max || lo.value > hi.value then Err(BadRange(part))
    else Ok(Progression(lo.value, hi.value, step.value))
  }

  ghost function PartValue(part: string, min: nat, max: nat): (r: Result<Progression, CronError>)
    ensures r.Ok? ==> Within(r.value, min, max)
  {
    Judge(part, min, max, StepOf(part), RangeOf(part, min, max).0, RangeOf(part, min, max).1)
  }

  // Union of the parts' progressions, or the first error from the left.
  ghost function PartsValue(parts: seq<string>, min: nat, max: nat): (r: Result<set<int>, CronError>)
    ensures r.Ok? ==> (forall v :: v in r.value ==> min <= v <= max) && (parts != [] ==> r.value != {})
    ensures r.Err? ==> r.error.BadStep? || r.error.BadRange?
  {
    if parts == [] then Ok({}) else
    match PartValue(parts[0], min, max)
    case Err(e) => Err(e)
    case Ok(g) =>
      FirstIsMember(g);
      match PartsValue(parts[1..], min, max)
      case Err(e) => Err(e)
      case Ok(s) => Ok(Members(g) + s)
  }

  ghost function FieldValue(spec: string, min: nat, max: nat): (r: Result<set<int>, CronError>)
    ensures r.Ok? ==> r.value != {} && forall v :: v in r.value ==> min <= v <= max
  {
    PartsValue(Split(spec, ','), min, max)
  }

  lemma NextInProgression(lo: int, v: int, step: int, u: int)
    requires step > 0 && (v - lo) % step == 0 && v <= u < v + step
    ensures (u - lo) % step == 0 <==> u == v
    ensures (v + step - lo) % step == 0
  {
    var q := (v - lo) / step;
    assert v - lo == q * step;
    assert u - lo == q * step + (u - v);
    DivisionIsUnique(u - lo, step, q, u - v);
    assert v + step - lo == (q + 1) * step + 0;
    DivisionIsUnique(v + step - lo, step, q + 1, 0);
  }

  ghost function Prepend(s: set<int>, r: Result<set<int>, CronError>): Result<set<int>, CronError> {
    if r.Ok? then Ok(s + r.value) else r
  }

  lemma PartsValueStep(out: set<int>, parts: seq<string>, i: nat, min: nat, max: nat)
    requires i < |parts|
    ensures PartValue(parts[i], min, max).Err? ==>
      Prepend(out, PartsValue(parts[i..], min, max)) == Err(PartValue(parts[i], min, max).error)
    ensures PartValue(parts[i], min, max).Ok? ==>
      Prepend(out, PartsValue(parts[i..], min, max))
      == Prepend(out + Members(PartValue(parts[i], min, max).value), PartsValue(parts[i + 1..], min, max))
  {
    assert parts[i..][1..] == parts[i + 1..];
    var rest := PartsValue(parts[i + 1..], min, max);
    if PartValue(parts[i], min, max).Ok? && rest.Ok? {
      var m := Members(PartValue(parts[i], min, max).value);
      assert out + (m + rest.value) == out + m + rest.value;
    }
  }

  // The number after the slash.
  method ReadStep(part: string) returns (step: Option<nat>)
    ensures step == StepOf(part)
  {
    var slash := IndexOf(part, '/');
    if slash == -1 {
      return Some(1);
    }
    return Number(part[slash + 1..]);
  }

  method ReadEnds(range: string, min: nat, max: nat) returns (lo: Option<nat>, hi: Option<nat>)
    ensures (lo, hi) == EndsOf(range, min, max)
  {
    if range == "*" {
      lo, hi := Some(min), Some(max);
    } else if '-' in range {
      var ends := Split(range, '-');
      lo, hi := Number(ends[0]), Number(ends[1]);
    } else {
      lo := Number(range);
      hi := lo;
    }
  }

  // The first half of the loop body: one part, checked against the field's bounds.
  method ReadPart(part: string, min: nat, max: nat) returns (r: Result<Progression, CronError>)
    ensures r == PartValue(part, min, max)
  {
    var step := ReadStep(part);
    if step.None? || step.value <= 0 {
      return Err(BadStep(part));
    }
    var lo, hi := ReadEnds(RangeText(part), min, max);
    if lo.None? || hi.None? || lo.value < min || hi.value > max || lo.value > hi.value {
      return Err(BadRange(part));
    }
    return Ok(Progression(lo.value, hi.value, step.value));
  }

  lemma StepAddsOne(g: Progression, v: int)
    requires g.step > 0 && g.lo <= v <= g.hi && (v - g.lo) % g.step == 0
    ensures (v + g.step - g.lo) % g.step == 0
    ensures (set u | u in Members(g) && u < v + g.step) == (set u | u in Members(g) && u < v) + {v}
  {
    forall u | v <= u < v + g.step ensures u in Members(g) <==> u == v {
      NextInProgression(g.lo, v, g.step, u);
    }
    NextInProgression(g.lo, v, g.step, v);
  }

  // The innermost loop: for (let v = lo; v <= hi; v += step) out.add(v)
  method AddProgression(before: set<int>, lo: int, hi: int, step: int) returns (out: set<int>)
    requires step > 0
    ensures out == before + Members(Progression(lo, hi, step))
  {
    out := before;
    var v := lo;
    while v <= hi
      invariant lo <= v && (v - lo) % step == 0
      invariant out == before + set u | u in Members(Progression(lo, hi, step)) && u < v
      decreases hi - v
    {
      ghost var g := Progression(lo, hi, step);
      StepAddsOne(g, v);
      out := out + {v};
      v := v + step;
    }
  }

  /** Reads one field. The final emptiness check of the source never fires: each part adds at least one value. */
  method ParseField(spec: string, min: nat, max: nat) returns (r: Result<set<int>, CronError>)
    ensures r == FieldValue(spec, min, max)
    ensures r.Ok? ==> r.value != {}
    ensures r.Ok? ==> forall v :: v in r.value ==> min <= v <= max
  {
    var out: set<int> := {};
    var parts := Split(spec, ',');
    assert parts[0..] == parts;
    assert FieldValue(spec, min, max).Ok? ==> out + FieldValue(spec, min, max).value == FieldValue(spec, min, max).value;
    for i := 0 to |parts|
      invariant i > 0 ==> out != {}
      invariant PartsValue(parts, min, max) == Prepend(out, PartsValue(parts[i..], min, max))
    {
      PartsValueStep(out, parts, i, min, max);
      var g := ReadPart(parts[i], min, max);
      if g.Err? {
        return Err(g.error);
      }
      FirstIsMember(g.value);
      out := AddProgression(out, g.value.lo, g.value.hi, g.value.step);
    }
    assert parts[|parts|..] == [];
    assert out != {};
    return Ok(out);
  }

  // ---- the whole expression -----------------------------------------------

  function SundayIsZero(v: int): int {
    if v == 7 then 0 else v
  }

  function Weekdays(raw: set<int>): set<int> {
    set v | v in raw :: SundayIsZero(v)
  }

  lemma WeekdaysInRange(raw: set<int>)
    requires raw != {} && forall v :: v in raw ==> 0 <= v <= 7
    ensures Weekdays(raw) != {} && forall v :: v in Weekdays(raw) ==> 0 <= v <= 6
  {
    var w := Element(raw);
    assert SundayIsZero(w) in Weekdays(raw);
  }

  type FieldResult = Result<set<int>, CronError>

  // The schedule of five fields, or the error of the first one that has one:
  // the weekday field is read before the others.
  function Assemble(
    minute: FieldResult, hour: FieldResult, dom: FieldResult, month: FieldResult, dow: FieldResult,
    domRestricted: bool, dowRestricted: bool
  ): Result<Schedule, CronError> {
    if dow.Err? then Err(dow.error)
    else if minute.Err? then Err(minute.error)
    else if hour.Err? then Err(hour.error)
    else if dom.Err? then Err(dom.error)
    else if month.Err? then Err(month.error)
    else Ok(Schedule(minute.value, hour.value, dom.value, month.value, Weekdays(dow.value), domRestricted, dowRestricted))
  }

  ghost function CronValue(expr: string): (r: Result<Schedule, CronError>)
    ensures r.Ok? ==> r.value.Valid()
  {
    var parts := Words(expr);
    if |parts| != 5 then Err(FieldCount) else
    var dow := FieldValue(parts[4], 0, 7);
    var r := Assemble(
      FieldValue(parts[0], 0, 59), FieldValue(parts[1], 0, 23), FieldValue(parts[2], 1, 31),
      FieldValue(parts[3], 1, 12), dow, parts[2] != "*", parts[4] != "*");
    if r.Err? then r
    else
      WeekdaysInRange(dow.value);
      r
  }

  /** Weekday 7 becomes 0, and every other weekday stays. */
  lemma WeekdaysAre(raw: set<int>)
    ensures forall v :: v in Weekdays(raw) <==> (v in raw && v != 7) || (v == 0 && 7 in raw)
  {
    forall v | (v in raw && v != 7) || (v == 0 && 7 in raw) ensures v in Weekdays(raw) {
      var w := if v in raw && v != 7 then v else 7;
      assert w in raw && SundayIsZero(w) == v;
    }
  }

  // Normalizes weekday 7 to 0.
  method FoldSunday(raw: set<int>) returns (dow: set<int>)
    ensures dow == Weekdays(raw)
    ensures forall v :: v in dow <==> (v in raw && v != 7) || (v == 0 && 7 in raw)
  {
    dow := {};
    var left := raw;
    while left != {}
      invariant left <= raw && dow == Weekdays(raw - left)
      decreases left
    {
      ghost var some := Element(left);
      var v :| v in left;
      assert raw - (left - {v}) == raw - left + {v};
      dow := dow + {SundayIsZero(v)};
      left := left - {v};
    }
    assert raw - left == raw;
    WeekdaysAre(raw);
  }

  method ParseCron(expr: string) returns (r: Result<Schedule, CronError>)
    ensures r == CronValue(expr)
    ensures r.Ok? ==> r.value.Valid()
    ensures |Words(expr)| != 5 ==> r == Err(FieldCount)
    ensures |Words(expr)| == 5 && FieldValue(Words(expr)[4], 0, 7).Err? ==> r == Err(FieldValue(Words(expr)[4], 0, 7).error)
  {
    var parts := Words(expr);
    if |parts| != 5 {
      return Err(FieldCount);
    }
    var dowRaw := ParseField(parts[4], 0, 7);
    if dowRaw.Err? {
      return Err(dowRaw.error);
    }
    var dow := FoldSunday(dowRaw.value);
    var minute := ParseField(parts[0], 0, 59);
    if minute.Err? {
      return Err(minute.error);
    }
    var hour := ParseField(parts[1], 0, 23);
    if hour.Err? {
      return Err(hour.error);
    }
    var dom := ParseField(parts[2], 1, 31);
    if dom.Err? {
      return Err(dom.error);
    }
    var month := ParseField(parts[3], 1, 12);
    if month.Err? {
      return Err(month.error);
    }
    return Ok(Schedule(minute.value, hour.value, dom.value, month.value, dow, parts[2] != "*", parts[4] != "*"));
  }

  /**
    The next run strictly after `fromMs`, or the reason for the exception. Errors
    of the expression win; otherwise the answer is the least firing minute.
  */
  method NextCronRun(expr: string, fromMs: nat) returns (r: Result<nat, CronError>)
    ensures CronValue(expr).Err? ==> r == Err(CronValue(expr).error)
    ensures CronValue(expr).Ok? ==>
      match r
      case Ok(t) => IsNext(CronValue(expr).value, fromMs, t)
      case Err(e) => e == NoMatch && forall s: nat :: fromMs < s ==> !Fires(CronValue(expr).value, s)
    ensures CronValue(expr).Ok? && fromMs + HORIZON_DAYS * Calendar.MS_PER_DAY < Calendar.MAX_TIME ==>
      (r.Err? <==> Impossible(CronValue(expr).value))
  {
    var p := ParseCron(expr);
    if p.Err? {
      return Err(p.error);
    }
    var t, _ := SearchFrom(p.value, fromMs);
    if t.None? {
      return Err(NoMatch);
    }
    return Ok(t.value);
  }

  // ---- the documented grammar ---------------------------------------------

  datatype Item =
    | Every
    | Single(n: nat)
    | Span(a: nat, b: nat)
    | EveryStep(s: nat)
    | SpanStep(a: nat, b: nat, s: nat)

  function Show(it: Item): string {
    match it
    case Every => "*"
    case Single(n) => Decimal(n)
    case Span(a, b) => Decimal(a) + "-" + Decimal(b)
    case EveryStep(s) => "*/" + Decimal(s)
    case SpanStep(a, b, s) => Decimal(a) + "-" + Decimal(b) + "/" + Decimal(s)
  }

  // The item names only values of the field and has a positive step, which
  // must not be so large that it reads as infinite.
  predicate Fits(it: Item, min: nat, max: nat) {
    match it
    case Every => true
    case Single(n) => min <= n <= max
    case Span(a, b) => min <= a <= b <= max
    case EveryStep(s) => s > 0 && IsFinite(s)
    case SpanStep(a, b, s) => min <= a <= b <= max && s > 0 && IsFinite(s)
  }

  ghost function Denotes(it: Item, min: nat, max: nat): set<int>
    requires Fits(it, min, max)
  {
    match it
    case Every => Interval(min, max)
    case Single(n) => {n}
    case Span(a, b) => Interval(a, b)
    case EveryStep(s) => set v | v in Interval(min, max) && (v - min) % s == 0
    case SpanStep(a, b, s) => set v | v in Interval(a, b) && (v - a) % s == 0
  }

  predicate AllFit(items: seq<Item>, min: nat, max: nat) {
    forall i :: 0 <= i < |items| ==> Fits(items[i], min, max)
  }

  ghost function DenotesAll(items: seq<Item>, min: nat, max: nat): set<int>
    requires AllFit(items, min, max)
  {
    if items == [] then {} else Denotes(items[0], min, max) + DenotesAll(items[1..], min, max)
  }

  function ShowAll(items: seq<Item>): (r: seq<string>)
    ensures |r| == |items| && forall i :: 0 <= i < |items| ==> r[i] == Show(items[i])
  {
    if items == [] then [] else [Show(items[0])] + ShowAll(items[1..])
  }

  function FieldText(items: seq<Item>): string
    requires items != []
  {
    Join(ShowAll(items), ',')
  }

  // The characters a printed item is made of.
  predicate ItemChars(s: string) {
    forall i :: 0 <= i < |s| ==> IsDigit(s[i]) || s[i] in {'*', '-', '/'}
  }

  lemma Concat(a: string, b: string)
    requires a != "" && ItemChars(a) && ItemChars(b)
    ensures a + b != "" && ItemChars(a + b)
  {
    assert (a + b)[0] == a[0];
  }

  lemma ShowChars(it: Item)
    ensures Show(it) != "" && ItemChars(Show(it))
  {
    match it
    case Every =>
    case Single(n) =>
    case Span(a, b) =>
      Concat(Decimal(a), "-");
      Concat(Decimal(a) + "-", Decimal(b));
    case EveryStep(s) =>
      Concat("*/", Decimal(s));
    case SpanStep(a, b, s) =>
      Concat(Decimal(a), "-");
      Concat(Decimal(a) + "-", Decimal(b));
      Concat(Decimal(a) + "-" + Decimal(b), "/");
      Concat(Decimal(a) + "-" + Decimal(b) + "/", Decimal(s));
  }

  lemma DecimalText(n: nat)
    ensures '/' !in Decimal(n) && '-' !in Decimal(n) && '*' !in Decimal(n) && Decimal(n) != "*"
  {
    assert AllDigits(Decimal(n));
  }

  lemma NoSlash(s: string)
    requires '/' !in s
    ensures StepOf(s) == Some(1)
    ensures forall min: nat, max: nat ::
      RangeOf(s, min, max)
      == if s == "*" then (Some(min), Some(max))
         else if '-' in s then (Number(Split(s, '-')[0]), Number(Split(s, '-')[1]))
         else (Number(s), Number(s))
  {
  }

  // "range/step": the text after the only slash is the step.
  lemma WithSlash(range: string, step: string)
    requires '/' !in range
    ensures StepOf(range + "/" + step) == Number(step)
    ensures forall min: nat, max: nat :: RangeOf(range + "/" + step, min, max) == RangeOf(range, min, max)
  {
    var s := range + "/" + step;
    assert s[..|range|] == range && s[|range|] == '/';
    IndexOfFirst(range, '/', s);
    assert s[|range| + 1..] == step;
  }

  // Two texts joined by a dash.
  lemma DashJoins(a: string, b: string)
    requires a != "" && forall c :: c in {'/', '-'} ==> c !in a && c !in b
    ensures var s := a + "-" + b; '/' !in s && '-' in s && s != "*" && Split(s, '-') == [a, b]
  {
    var s := a + ['-'] + b;
    assert a + "-" + b == s && s[|a|] == '-';
    SplitStep(a, '-', b);
    SplitWhole(b, '-');
  }

  lemma SpanRange(a: nat, b: nat, min: nat, max: nat)
    ensures RangeOf(Decimal(a) + "-" + Decimal(b), min, max) == (IntegerDouble(a, 1), IntegerDouble(b, 1))
  {
    DecimalText(a);
    DecimalText(b);
    DashJoins(Decimal(a), Decimal(b));
    NoSlash(Decimal(a) + "-" + Decimal(b));
    NumberOfDecimal(a);
    NumberOfDecimal(b);
  }

  // The step and the ends that an item's text gives: its numbers, as doubles.
  function StepNumber(it: Item): Option<nat> {
    match it
    case EveryStep(s) => IntegerDouble(s, 1)
    case SpanStep(_, _, s) => IntegerDouble(s, 1)
    case _ => Some(1)
  }

  function Ends(it: Item, min: nat, max: nat): (Option<nat>, Option<nat>) {
    match it
    case Every => (Some(min), Some(max))
    case Single(n) => (IntegerDouble(n, 1), IntegerDouble(n, 1))
    case Span(a, b) => (IntegerDouble(a, 1), IntegerDouble(b, 1))
    case EveryStep(_) => (Some(min), Some(max))
    case SpanStep(a, b, _) => (IntegerDouble(a, 1), IntegerDouble(b, 1))
  }

  ghost predicate Reads(it: Item, part: string, min: nat, max: nat) {
    StepOf(part) == StepNumber(it) && RangeOf(part, min, max) == Ends(it, min, max)
  }

  lemma SingleReads(n: nat, min: nat, max: nat)
    ensures Reads(Single(n), Decimal(n), min, max)
  {
    DecimalText(n);
    NumberOfDecimal(n);
    NoSlash(Decimal(n));
  }

  lemma SpanReads(a: nat, b: nat, min: nat, max: nat)
    ensures Reads(Span(a, b), Decimal(a) + "-" + Decimal(b), min, max)
  {
    DecimalText(a);
    DecimalText(b);
    DashJoins(Decimal(a), Decimal(b));
    SpanRange(a, b, min, max);
    NoSlash(Decimal(a) + "-" + Decimal(b));
  }

  lemma EveryStepReads(s: nat, min: nat, max: nat)
    ensures Reads(EveryStep(s), "*/" + Decimal(s), min, max)
  {
    NumberOfDecimal(s);
    NoSlash("*");
    WithSlash("*", Decimal(s));
    assert "*/" + Decimal(s) == "*" + "/" + Decimal(s);
  }

  lemma SpanStepReads(a: nat, b: nat, s: nat, min: nat, max: nat)
    ensures Reads(SpanStep(a, b, s), Decimal(a) + "-" + Decimal(b) + "/" + Decimal(s), min, max)
  {
    DecimalText(a);
    DecimalText(b);
    DashJoins(Decimal(a), Decimal(b));
    SpanRange(a, b, min, max);
    NumberOfDecimal(s);
    WithSlash(Decimal(a) + "-" + Decimal(b), Decimal(s));
  }

  lemma ShowReads(it: Item, min: nat, max: nat)
    ensures Reads(it, Show(it), min, max)
  {
    match it
    case Every => NoSlash("*");
    case Single(n) => SingleReads(n, min, max);
    case Span(a, b) => SpanReads(a, b, min, max);
    case EveryStep(s) => EveryStepReads(s, min, max);
    case SpanStep(a, b, s) => SpanStepReads(a, b, s, min, max);
  }

  lemma UnitStep(a: int, b: int)
    ensures Members(Progression(a, b, 1)) == Interval(a, b)
  {
  }

  // A step longer than the interval leaves only its first value.
  lemma LongStep(a: nat, b: nat, step: nat)
    requires a <= b < a + step
    ensures Members(Progression(a, b, step)) == {a}
  {
    forall v ensures v in Members(Progression(a, b, step)) <==> v == a {
      if a <= v <= b {
        DivisionIsUnique(v - a, step, 0, v - a);
      }
    }
  }

  // Rounding the step to a double does not change the values.
  lemma RoundedStep(a: nat, b: nat, s: nat)
    requires a <= b < MANTISSA_LIMIT && s > 0 && IsFinite(s)
    ensures IntegerDouble(s, 1).value > 0
    ensures Members(Progression(a, b, IntegerDouble(s, 1).value)) == Members(Progression(a, b, s))
  {
    if s < MANTISSA_LIMIT {
      SmallIsExact(s);
    } else {
      LargeStaysLarge(s);
      LongStep(a, b, s);
      LongStep(a, b, IntegerDouble(s, 1).value);
    }
  }

  // A number is in the bounds of a field exactly when its double is.
  lemma BoundsAreExact(n: nat, max: nat)
    requires max < MANTISSA_LIMIT
    ensures n <= max <==> IsFinite(n) && IntegerDouble(n, 1).value <= max
    ensures n <= max ==> IntegerDouble(n, 1) == Some(n)
  {
    if n < MANTISSA_LIMIT {
      SmallIsExact(n);
    } else if IsFinite(n) {
      LargeStaysLarge(n);
    }
  }

  // The ends of an item lie in the field.
  predicate EndsInside(it: Item, min: nat, max: nat) {
    match it
    case Single(n) => min <= n <= max
    case Span(a, b) => min <= a <= b <= max
    case SpanStep(a, b, _) => min <= a <= b <= max
    case _ => true
  }

  lemma PairFits(a: nat, b: nat, max: nat)
    requires max < MANTISSA_LIMIT
    ensures IsFinite(a) && IsFinite(b) && IntegerDouble(a, 1).value <= IntegerDouble(b, 1).value <= max <==> a <= b <= max
    ensures a <= b <= max ==> IntegerDouble(a, 1) == Some(a) && IntegerDouble(b, 1) == Some(b)
  {
    BoundsAreExact(a, max);
    BoundsAreExact(b, max);
  }

  lemma EndsFit(it: Item, min: nat, max: nat)
    requires min <= max < MANTISSA_LIMIT
    ensures var (lo, hi) := Ends(it, min, max);
      EndsInside(it, min, max) <==> lo.Some? && hi.Some? && min <= lo.value <= hi.value <= max
  {
    match it
    case Single(n) => BoundsAreExact(n, max);
    case Span(a, b) => PairFits(a, b, max);
    case SpanStep(a, b, _) => PairFits(a, b, max);
    case _ =>
  }

  lemma PositiveDouble(s: nat)
    ensures IsFinite(s) && IntegerDouble(s, 1).value > 0 <==> s > 0 && IsFinite(s)
  {
    if s < MANTISSA_LIMIT {
      SmallIsExact(s);
    } else if IsFinite(s) {
      LargeStaysLarge(s);
    }
  }

  lemma StepFits(it: Item)
    ensures match it
      case EveryStep(s) => StepNumber(it).Some? && StepNumber(it).value > 0 <==> s > 0 && IsFinite(s)
      case SpanStep(_, _, s) => StepNumber(it).Some? && StepNumber(it).value > 0 <==> s > 0 && IsFinite(s)
      case _ => true
  {
    match it
    case EveryStep(s) => PositiveDouble(s);
    case SpanStep(_, _, s) => PositiveDouble(s);
    case _ =>
  }

  lemma MeaningDenotes(it: Item, min: nat, max: nat)
    requires min <= max < MANTISSA_LIMIT && Fits(it, min, max)
    ensures var (lo, hi) := Ends(it, min, max);
      && lo.Some? && hi.Some? && StepNumber(it).Some? && StepNumber(it).value > 0
      && Members(Progression(lo.value, hi.value, StepNumber(it).value)) == Denotes(it, min, max)
  {
    match it
    case Every => UnitStep(min, max);
    case Single(n) =>
      BoundsAreExact(n, max);
      UnitStep(n, n);
    case Span(a, b) =>
      PairFits(a, b, max);
      UnitStep(a, b);
    case EveryStep(s) => RoundedStep(min, max, s);
    case SpanStep(a, b, s) =>
      PairFits(a, b, max);
      RoundedStep(a, b, s);
  }

  // The verdict on the numbers of an item is that on the item.
  lemma JudgedFits(it: Item, part: string, min: nat, max: nat)
    requires min <= max < MANTISSA_LIMIT
    ensures var r := Judge(part, min, max, StepNumber(it), Ends(it, min, max).0, Ends(it, min, max).1);
      && (r.Ok? <==> Fits(it, min, max))
      && (r.Ok? ==> Members(r.value) == Denotes(it, min, max))
  {
    EndsFit(it, min, max);
    StepFits(it);
    if Fits(it, min, max) {
      MeaningDenotes(it, min, max);
    }
  }

  lemma PartIsJudged(it: Item, min: nat, max: nat)
    ensures PartValue(Show(it), min, max)
         == Judge(Show(it), min, max, StepNumber(it), Ends(it, min, max).0, Ends(it, min, max).1)
  {
    ShowReads(it, min, max);
  }

  /** A printed item is accepted exactly when it fits the field, and then denotes its values. */
  lemma PartOfItem(it: Item, min: nat, max: nat)
    requires min <= max < MANTISSA_LIMIT
    ensures PartValue(Show(it), min, max).Ok? <==> Fits(it, min, max)
    ensures Fits(it, min, max) ==> Members(PartValue(Show(it), min, max).value) == Denotes(it, min, max)
  {
    PartIsJudged(it, min, max);
    JudgedFits(it, Show(it), min, max);
  }

  lemma AllFitStep(items: seq<Item>, min: nat, max: nat)
    requires items != []
    ensures AllFit(items, min, max) <==> Fits(items[0], min, max) && AllFit(items[1..], min, max)
  {
    assert forall i :: 1 <= i < |items| ==> items[i] == items[1..][i - 1];
  }

  lemma {:induction false} PartsOfItems(items: seq<Item>, min: nat, max: nat)
    requires min <= max < MANTISSA_LIMIT
    ensures PartsValue(ShowAll(items), min, max).Ok? <==> AllFit(items, min, max)
    ensures AllFit(items, min, max) ==> PartsValue(ShowAll(items), min, max).value == DenotesAll(items, min, max)
    decreases |items|
  {
    if items != [] {
      AllFitStep(items, min, max);
      PartOfItem(items[0], min, max);
      PartsOfItems(items[1..], min, max);
      assert ShowAll(items)[1..] == ShowAll(items[1..]);
    }
  }

  /** The parser on any field of the documented grammar: accepted iff every item fits, and then exactly their union. */
  lemma FieldOfGrammar(items: seq<Item>, min: nat, max: nat)
    requires items != [] && min <= max < MANTISSA_LIMIT
    ensures FieldValue(FieldText(items), min, max).Ok? <==> AllFit(items, min, max)
    ensures FieldValue(FieldText(items), min, max).Ok? ==>
      FieldValue(FieldText(items), min, max).value == DenotesAll(items, min, max)
  {
    forall i | 0 <= i < |items| ensures ',' !in ShowAll(items)[i] {
      ShowChars(items[i]);
      assert !IsDigit(',');
    }
    SplitOfJoin(ShowAll(items), ',');
    PartsOfItems(items, min, max);
  }

  function Singles(vs: seq<nat>): (r: seq<Item>)
    ensures |r| == |vs| && forall i :: 0 <= i < |vs| ==> r[i] == Single(vs[i])
  {
    seq(|vs|, i requires 0 <= i < |vs| => Single(vs[i]))
  }

  lemma {:induction false} DenotesSingles(vs: seq<nat>, min: nat, max: nat)
    requires forall i :: 0 <= i < |vs| ==> min <= vs[i] <= max
    ensures DenotesAll(Singles(vs), min, max) == set v | v in vs
    decreases |vs|
  {
    if vs != [] {
      DenotesSingles(vs[1..], min, max);
      assert Singles(vs)[1..] == Singles(vs[1..]);
      assert vs == [vs[0]] + vs[1..];
    }
  }

  /** Printing a set of field values as a comma list, in any order, reads back as that set. */
  lemma CommaListRoundTrip(vs: seq<nat>, min: nat, max: nat)
    requires vs != [] && max < MANTISSA_LIMIT && forall i :: 0 <= i < |vs| ==> min <= vs[i] <= max
    ensures FieldValue(FieldText(Singles(vs)), min, max) == Ok(set v: int | v in vs)
  {
    assert min <= vs[0] <= max;
    FieldOfGrammar(Singles(vs), min, max);
    DenotesSingles(vs, min, max);
    assert (set v | v in vs) == (set v: int | v in vs);
  }

  // ---- a printed schedule -------------------------------------------------

  predicate Blank(s: string) {
    forall i :: 0 <= i < |s| ==> IsSpace(s[i])
  }

  lemma {:induction false} JoinedChars(parts: seq<string>)
    requires |parts| >= 1
    requires forall i :: 0 <= i < |parts| ==> parts[i] != "" && ItemChars(parts[i])
    ensures IsWord(Join(parts, ','))
    ensures |parts| > 1 ==> Join(parts, ',') != "*"
    decreases |parts|
  {
    if |parts| > 1 {
      JoinedChars(parts[1..]);
      assert Join(parts, ',') == parts[0] + [','] + Join(parts[1..], ',');
    }
  }

  lemma ShowIsStar(it: Item)
    ensures Show(it) == "*" <==> it == Every
  {
    match it
    case Every =>
    case Single(n) => DecimalText(n);
    case Span(a, b) => assert |Show(it)| >= 3;
    case EveryStep(s) => assert |Show(it)| >= 3;
    case SpanStep(a, b, s) => assert |Show(it)| >= 3;
  }

  lemma FieldTextIsWord(items: seq<Item>)
    requires items != []
    ensures IsWord(FieldText(items))
    ensures FieldText(items) == "*" <==> items == [Every]
  {
    forall i | 0 <= i < |items| ensures ShowAll(items)[i] != "" && ItemChars(ShowAll(items)[i]) {
      ShowChars(items[i]);
    }
    JoinedChars(ShowAll(items));
    if |items| == 1 {
      assert FieldText(items) == Show(items[0]);
      ShowIsStar(items[0]);
      assert items == [items[0]];
    }
  }

  // Blanks, then words each followed by blanks.
  function Spaced(blanks: seq<string>, words: seq<string>): string
    requires |blanks| == |words| + 1
  {
    if words == [] then blanks[0] else blanks[0] + words[0] + Spaced(blanks[1..], words[1..])
  }

  lemma {:induction false} WordsOfSpaced(blanks: seq<string>, words: seq<string>)
    requires |blanks| == |words| + 1
    requires forall i :: 0 <= i < |blanks| ==> Blank(blanks[i])
    requires forall i :: 1 <= i < |words| ==> blanks[i] != ""
    requires forall i :: 0 <= i < |words| ==> IsWord(words[i])
    ensures Words(Spaced(blanks, words)) == words
    decreases |words|
  {
    if words == [] {
      WordsOfBlank(blanks[0]);
    } else {
      WordsOfSpaced(blanks[1..], words[1..]);
      var rest := Spaced(blanks[1..], words[1..]);
      assert |words| > 1 ==> blanks[1] != "" && rest[0] == blanks[1][0];
      WordsStep(blanks[0], words[0], rest);
      assert words == [words[0]] + words[1..];
    }
  }

  function FieldTexts(fields: seq<seq<Item>>): (r: seq<string>)
    requires forall i :: 0 <= i < |fields| ==> fields[i] != []
    ensures |r| == |fields| && forall i :: 0 <= i < |fields| ==> r[i] == FieldText(fields[i])
  {
    seq(|fields|, i requires 0 <= i < |fields| => FieldText(fields[i]))
  }

  /**
    Five fields of the documented grammar, with any spacing, parse to the
    schedule they denote: weekday 7 becomes 0, and a day field counts as
    restricted unless it is the single item `*`.
  */
  lemma ScheduleRoundTrip(fields: seq<seq<Item>>, blanks: seq<string>)
    requires |fields| == 5 && forall i :: 0 <= i < 5 ==> fields[i] != []
    requires |blanks| == 6 && (forall i :: 0 <= i < 6 ==> Blank(blanks[i])) && forall i :: 1 <= i < 5 ==> blanks[i] != ""
    requires AllFit(fields[0], 0, 59)
    requires AllFit(fields[1], 0, 23)
    requires AllFit(fields[2], 1, 31)
    requires AllFit(fields[3], 1, 12)
    requires AllFit(fields[4], 0, 7)
    ensures CronValue(Spaced(blanks, FieldTexts(fields))) == Ok(Schedule(
      DenotesAll(fields[0], 0, 59), DenotesAll(fields[1], 0, 23), DenotesAll(fields[2], 1, 31),
      DenotesAll(fields[3], 1, 12), Weekdays(DenotesAll(fields[4], 0, 7)),
      fields[2] != [Every], fields[4] != [Every]))
  {
    var words := FieldTexts(fields);
    forall i | 0 <= i < 5 ensures IsWord(words[i]) {
      FieldTextIsWord(fields[i]);
    }
    WordsOfSpaced(blanks, words);
    FieldOfGrammar(fields[0], 0, 59);
    FieldOfGrammar(fields[1], 0, 23);
    FieldOfGrammar(fields[2], 1, 31);
    FieldOfGrammar(fields[3], 1, 12);
    FieldOfGrammar(fields[4], 0, 7);
    FieldTextIsWord(fields[2]);
    FieldTextIsWord(fields[4]);
  }

  // ---- an expression that fires only every four or eight years --------------

  lemma OneItem(it: Item, min: nat, max: nat)
    requires Fits(it, min, max)
    ensures AllFit([it], min, max) && DenotesAll([it], min, max) == Denotes(it, min, max)
  {
    assert [it][1..] == [];
  }

  lemma EveryWeekday(max: nat)
    requires max == 7
    ensures Weekdays(Interval(0, max)) == {0, 1, 2, 3, 4, 5, 6}
  {
    forall v | v in {0, 1, 2, 3, 4, 5, 6} ensures v in Weekdays(Interval(0, max)) {
      assert v in Interval(0, max) && SundayIsZero(v) == v;
    }
  }

  lemma OneMoreWord(blank: string, word: string, blanks: seq<string>, words: seq<string>, rest: string)
    requires |blanks| == |words| + 1 && Spaced(blanks, words) == rest
    ensures Spaced([blank] + blanks, [word] + words) == blank + word + rest
  {
    assert ([blank] + blanks)[1..] == blanks && ([word] + words)[1..] == words;
  }

  lemma LeapDayTextBack()
    ensures Spaced([" ", " ", ""], ["2", "*"]) == " 2 *"
  {
    assert Spaced([""], []) == "";
    OneMoreWord(" ", "*", [""], [], "");
    assert [" "] + [""] == [" ", ""] && ["*"] + [] == ["*"] && " " + "*" + "" == " *";
    OneMoreWord(" ", "2", [" ", ""], ["*"], " *");
    assert [" "] + [" ", ""] == [" ", " ", ""] && ["2"] + ["*"] == ["2", "*"] && " " + "2" + " *" == " 2 *";
  }

  lemma LeapDayTextFront(blanks: seq<string>, words: seq<string>)
    requires |blanks| == |words| + 1 && Spaced(blanks, words) == " 29 2 *"
    ensures Spaced([""] + ([" "] + blanks), ["0"] + (["0"] + words)) == "0 0 29 2 *"
  {
    OneMoreWord(" ", "0", blanks, words, " 29 2 *");
    assert " " + "0" + " 29 2 *" == " 0 29 2 *";
    OneMoreWord("", "0", [" "] + blanks, ["0"] + words, " 0 29 2 *");
    assert "" + "0" + " 0 29 2 *" == "0 0 29 2 *";
  }

  // "0 0 29 2 *" as blanks and words.
  lemma LeapDayText()
    ensures Spaced(["", " ", " ", " ", " ", ""], ["0", "0", "29", "2", "*"]) == "0 0 29 2 *"
  {
    LeapDayTextBack();
    OneMoreWord(" ", "29", [" ", " ", ""], ["2", "*"], " 2 *");
    assert [" "] + [" ", " ", ""] == [" ", " ", " ", ""] && ["29"] + ["2", "*"] == ["29", "2", "*"];
    assert " " + "29" + " 2 *" == " 29 2 *";
    LeapDayTextFront([" ", " ", " ", ""], ["29", "2", "*"]);
  }

  lemma LeapDayWords(fields: seq<seq<Item>>)
    requires fields == [[Single(0)], [Single(0)], [Single(29)], [Single(2)], [Every]]
    ensures FieldTexts(fields) == ["0", "0", "29", "2", "*"]
  {
    assert Decimal(0) == "0" && Decimal(2) == "2" && Decimal(29) == "29";
    forall i | 0 <= i < 5 ensures FieldText(fields[i]) == Show(fields[i][0]) {
      assert fields[i] == [fields[i][0]] && fields[i][1..] == [];
      assert ShowAll(fields[i]) == [Show(fields[i][0])];
    }
  }

  /** The documented limit of one year fails for this text: see `CronYear.NextRunBeyondOneYear`. */
  lemma LeapDayExpression()
    ensures CronValue("0 0 29 2 *") == Ok(CronYear.LeapDaySchedule())
  {
    var fields := [[Single(0)], [Single(0)], [Single(29)], [Single(2)], [Every]];
    OneItem(Single(0), 0, 59);
    OneItem(Single(0), 0, 23);
    OneItem(Single(29), 1, 31);
    OneItem(Single(2), 1, 12);
    OneItem(Every, 0, 7);
    ScheduleRoundTrip(fields, ["", " ", " ", " ", " ", ""]);
    EveryWeekday(7);
    LeapDayWords(fields);
    LeapDayText();
  }
}
