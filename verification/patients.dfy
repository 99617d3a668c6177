/** The patient record: its field constraints, the derived `bmi` and
    `verdict` fields, the stored form of a record, and the partial update
    that is merged into a stored record. */
module Patients {
  import opened Wrappers
  import opened Errors

  /** The three genders the record accepts. */
  const Genders: set<string> := {"male", "female", "other"}

  /** Verdict labels. */
  const Underweight := "Underweight"
  const NormalWeight := "Normal weight"
  const Overweight := "Overweight"
  const Obesity := "Obesity"

  // ---------------------------------------------------------------------------
  // Field constraints (name and city carry none)

  predicate AgeOk(age: int) { 0 < age < 120 }
  predicate GenderOk(gender: string) { gender in Genders }
  predicate HeightOk(height: real) { height > 0.0 }
  predicate WeightOk(weight: real) { weight > 0.0 }

  /** A validated patient, without its id (the id is the key it is stored under). */
  datatype Patient = Patient(
    name: string,
    city: string,
    age: int,
    gender: string,
    height: real,
    weight: real)

  ghost predicate Valid(p: Patient) {
    AgeOk(p.age) && GenderOk(p.gender) && HeightOk(p.height) && WeightOk(p.weight)
  }

  // ---------------------------------------------------------------------------
  // Derived fields

  /** `x` is a whole number of hundredths. */
  ghost predicate IsCents(x: real) {
    (x * 100.0).Floor as real == x * 100.0
  }

  /** Rounds to two decimal places, halfway cases to the even hundredth
      (the rounding rule of Python's `round`), on exact reals. */
  function Round2(x: real): (r: real)
    ensures IsCents(r)
    ensures x - 0.005 <= r <= x + 0.005
    ensures (r - x == 0.005 || x - r == 0.005) ==> (r * 100.0).Floor % 2 == 0
  {
    var y := x * 100.0;
    var n := y.Floor;
    var frac := y - n as real;
    var m := if frac < 0.5 then n
             else if frac > 0.5 then n + 1
             else if n % 2 == 0 then n else n + 1;
    assert (m as real / 100.0) * 100.0 == m as real;
    m as real / 100.0
  }

  /** Body-mass index: weight over height squared, rounded to hundredths. */
  function Bmi(height: real, weight: real): (r: real)
    requires HeightOk(height)
    ensures IsCents(r)
    ensures weight / (height * height) - 0.005 <= r <= weight / (height * height) + 0.005
    ensures var q := weight / (height * height);
      (r - q == 0.005 || q - r == 0.005) ==> (r * 100.0).Floor % 2 == 0
  {
    Round2(weight / (height * height))
  }

  /** The verdict bands of the record, kept exactly as written: the band
      24.9 <= bmi < 25 matches neither "Normal weight" nor "Overweight"
      and falls through to "Obesity". */
  function Verdict(bmi: real): (v: string)
    ensures v == Underweight <==> bmi < 18.5
    ensures v == NormalWeight <==> 18.5 <= bmi < 24.9
    ensures v == Overweight <==> 25.0 <= bmi < 29.9
    ensures v == Obesity <==> (24.9 <= bmi < 25.0 || 29.9 <= bmi)
  {
    if bmi < 18.5 then Underweight
    else if 18.5 <= bmi < 24.9 then NormalWeight
    else if 25.0 <= bmi < 29.9 then Overweight
    else Obesity
  }

  /** Severity rank of a verdict label. */
  function Rank(v: string): (r: int) {
    if v == Underweight then 0
    else if v == NormalWeight then 1
    else if v == Overweight then 2
    else 3
  }

  /** Outside the band [24.9, 25) a higher bmi never gets a milder verdict. */
  lemma VerdictMonotoneOutsideGap(b1: real, b2: real)
    requires b1 <= b2
    requires !(24.9 <= b1 < 25.0) && !(24.9 <= b2 < 25.0)
    ensures Rank(Verdict(b1)) <= Rank(Verdict(b2))
  {
  }

  /** The band is reachable: a 2 m, 99.8 kg patient has bmi 24.95 and is
      labelled "Obesity", while a heavier 100 kg patient (bmi 25) is only
      "Overweight". */
  lemma GapBreaksMonotonicity()
    ensures Bmi(2.0, 99.8) == 24.95 && Verdict(Bmi(2.0, 99.8)) == Obesity
    ensures Bmi(2.0, 100.0) == 25.0 && Verdict(Bmi(2.0, 100.0)) == Overweight
    ensures Rank(Verdict(Bmi(2.0, 99.8))) > Rank(Verdict(Bmi(2.0, 100.0)))
  {
  }

  // ---------------------------------------------------------------------------
  // Stored form

  /** A stored record as it sits in the patients document: every key may be
      missing in a document written by hand, so every field is optional. */
  datatype Entry = Entry(
    name: Option<string>,
    city: Option<string>,
    age: Option<int>,
    gender: Option<string>,
    height: Option<real>,
    weight: Option<real>,
    bmi: Option<real>,
    verdict: Option<string>)

  /** An entry as the service itself writes it: every input field present
      and valid, and the derived fields agreeing with height and weight. */
  ghost predicate WellFormed(e: Entry) {
    && e.name.Some? && e.city.Some? && e.age.Some? && e.gender.Some?
    && e.height.Some? && e.weight.Some?
    && Valid(Patient(e.name.value, e.city.value, e.age.value, e.gender.value,
                     e.height.value, e.weight.value))
    && e.bmi == Some(Bmi(e.height.value, e.weight.value))
    && e.verdict == Some(Verdict(Bmi(e.height.value, e.weight.value)))
  }

  // ---------------------------------------------------------------------------
  // Unvalidated field sets: request bodies, and a stored entry read back

  /** The six input fields of a patient, each possibly absent. Used for the
      body of a create request, the body of an update request, and for a
      stored entry fed back through validation. */
  datatype Fields = Fields(
    name: Option<string>,
    city: Option<string>,
    age: Option<int>,
    gender: Option<string>,
    height: Option<real>,
    weight: Option<real>)

  const NoFields := Fields(None, None, None, None, None, None)

  /** The input fields of a stored entry; the stored bmi and verdict are
      not inputs and are ignored by validation. */
  function FieldsOf(e: Entry): (f: Fields)
    ensures f.name == e.name && f.city == e.city && f.age == e.age
    ensures f.gender == e.gender && f.height == e.height && f.weight == e.weight
  {
    Fields(e.name, e.city, e.age, e.gender, e.height, e.weight)
  }

  /** The names of the fields of `f` that are missing or break a constraint. */
  function Offending(f: Fields): (r: set<string>) {
    (if f.name.None? then {"name"} else {})
    + (if f.city.None? then {"city"} else {})
    + (if f.age.None? || !AgeOk(f.age.value) then {"age"} else {})
    + (if f.gender.None? || !GenderOk(f.gender.value) then {"gender"} else {})
    + (if f.height.None? || !HeightOk(f.height.value) then {"height"} else {})
    + (if f.weight.None? || !WeightOk(f.weight.value) then {"weight"} else {})
  }

  /** Builds a patient from a full field set, as the record's constructor
      does: every field is required and constrained. */
  function Construct(f: Fields): (r: Result<Patient, Error>)
    ensures r.Success? <==>
      && f.name.Some? && f.city.Some? && f.age.Some? && f.gender.Some?
      && f.height.Some? && f.weight.Some?
      && Valid(Patient(f.name.value, f.city.value, f.age.value, f.gender.value,
                       f.height.value, f.weight.value))
    ensures r.Success? ==>
      && r.value.name == f.name.value && r.value.city == f.city.value
      && r.value.age == f.age.value && r.value.gender == f.gender.value
      && r.value.height == f.height.value && r.value.weight == f.weight.value
    ensures r.Failure? ==> r.error.Invalid? && r.error.fields != {}
    ensures r.Failure? ==> r.error.fields <= {"name", "city", "age", "gender", "height", "weight"}
    ensures r.Failure? ==> ("age" in r.error.fields <==> f.age.None? || !(0 < f.age.value < 120))
    ensures r.Failure? ==> ("gender" in r.error.fields <==> f.gender.None? || f.gender.value !in Genders)
    ensures r.Failure? ==> ("height" in r.error.fields <==> f.height.None? || f.height.value <= 0.0)
    ensures r.Failure? ==> ("weight" in r.error.fields <==> f.weight.None? || f.weight.value <= 0.0)
    ensures r.Failure? ==> ("name" in r.error.fields <==> f.name.None?)
    ensures r.Failure? ==> ("city" in r.error.fields <==> f.city.None?)
  {
    var bad := Offending(f);
    if bad == {} then
      Success(Patient(f.name.value, f.city.value, f.age.value, f.gender.value,
                      f.height.value, f.weight.value))
    else
      Failure(Invalid(bad))
  }

  /** The stored form of a validated patient: the input fields plus the
      freshly derived bmi and verdict. Reading it back through validation
      gives the same patient. */
  function Dump(p: Patient): (e: Entry)
    requires Valid(p)
    ensures WellFormed(e)
    ensures Construct(FieldsOf(e)) == Success(p)
    ensures e.bmi == Some(Bmi(p.height, p.weight))
  {
    var bmi := Bmi(p.height, p.weight);
    Entry(Some(p.name), Some(p.city), Some(p.age), Some(p.gender),
          Some(p.height), Some(p.weight), Some(bmi), Some(Verdict(bmi)))
  }

  /** A well-formed entry is exactly the stored form of the patient it
      validates to: writing it back changes nothing. */
  lemma DumpConstructRoundTrip(e: Entry)
    requires WellFormed(e)
    ensures Construct(FieldsOf(e)).Success?
    ensures Dump(Construct(FieldsOf(e)).value) == e
  {
  }

  // ---------------------------------------------------------------------------
  // Partial updates

  /** The fields of an update body that are present and break their
      constraint (absent fields are not checked). */
  function UpdateOffending(u: Fields): (r: set<string>) {
    (if u.age.Some? && !AgeOk(u.age.value) then {"age"} else {})
    + (if u.gender.Some? && !GenderOk(u.gender.value) then {"gender"} else {})
    + (if u.height.Some? && !HeightOk(u.height.value) then {"height"} else {})
    + (if u.weight.Some? && !WeightOk(u.weight.value) then {"weight"} else {})
  }

  /** Validation of an update body: only the present fields are checked. */
  function CheckUpdate(u: Fields): (r: Outcome<Error>)
    ensures r.Pass? <==>
      && (u.age.Some? ==> 0 < u.age.value < 120)
      && (u.gender.Some? ==> u.gender.value in Genders)
      && (u.height.Some? ==> u.height.value > 0.0)
      && (u.weight.Some? ==> u.weight.value > 0.0)
    ensures r.Fail? ==> r.error.Invalid? && r.error.fields != {}
    ensures r.Fail? ==> r.error.fields <= {"age", "gender", "height", "weight"}
    ensures r.Fail? ==> ("age" in r.error.fields <==> u.age.Some? && !(0 < u.age.value < 120))
    ensures r.Fail? ==> ("gender" in r.error.fields <==> u.gender.Some? && u.gender.value !in Genders)
    ensures r.Fail? ==> ("height" in r.error.fields <==> u.height.Some? && u.height.value <= 0.0)
    ensures r.Fail? ==> ("weight" in r.error.fields <==> u.weight.Some? && u.weight.value <= 0.0)
  {
    var bad := UpdateOffending(u);
    if bad == {} then Pass else Fail(Invalid(bad))
  }

  /** The empty update passes validation. */
  lemma EmptyUpdateChecks()
    ensures CheckUpdate(NoFields).Pass?
  {
  }

  /** Merges an update into a base field set: a present update field
      replaces the base value, an absent one keeps it. */
  function Overlay(base: Fields, u: Fields): (r: Fields)
    ensures u.name.Some? ==> r.name == u.name
    ensures u.name.None? ==> r.name == base.name
    ensures u.city.Some? ==> r.city == u.city
    ensures u.city.None? ==> r.city == base.city
    ensures u.age.Some? ==> r.age == u.age
    ensures u.age.None? ==> r.age == base.age
    ensures u.gender.Some? ==> r.gender == u.gender
    ensures u.gender.None? ==> r.gender == base.gender
    ensures u.height.Some? ==> r.height == u.height
    ensures u.height.None? ==> r.height == base.height
    ensures u.weight.Some? ==> r.weight == u.weight
    ensures u.weight.None? ==> r.weight == base.weight
  {
    Fields(u.name.OrElse(base.name), u.city.OrElse(base.city), u.age.OrElse(base.age),
           u.gender.OrElse(base.gender), u.height.OrElse(base.height),
           u.weight.OrElse(base.weight))
  }

  /** An empty update merges to the base unchanged. */
  lemma OverlayEmpty(base: Fields)
    ensures Overlay(base, NoFields) == base
  {
  }

  /** Applying the same update twice is the same as applying it once. */
  lemma OverlayIdempotent(base: Fields, u: Fields)
    ensures Overlay(Overlay(base, u), u) == Overlay(base, u)
  {
  }

  /** Two successive updates merge like one update holding the fields of
      both, the later one winning where both are present. */
  lemma OverlayCompose(base: Fields, u1: Fields, u2: Fields)
    ensures Overlay(Overlay(base, u1), u2) == Overlay(base, Overlay(u1, u2))
  {
  }

  /** Merging a checked update into a complete, valid field set always
      revalidates: the whole-record check can only fail when the stored
      record was already broken. */
  lemma MergeRevalidates(base: Fields, u: Fields)
    requires Construct(base).Success?
    requires CheckUpdate(u).Pass?
    ensures Construct(Overlay(base, u)).Success?
  {
  }
}
