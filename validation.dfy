/**
  * The record form: the rules `validateForm` checks, in its order and with
  * its messages, the dose total `calculateTotalAmount` shows, and the
  * record that `getFormData` and `submitRecord` build from a valid form.
  */
module Validation {
  import opened Base
  import opened Text
  import opened Dispensation

  /**
    * The form as read. Text fields are as typed; each numeric field is what
    * `parseInt` returned for it, `None` standing for `NaN`.
    */
  datatype Form = Form(
    patientName: string,
    age: Option<int>,
    gender: string,
    diagnosis: string,
    allergyTest: string,
    frequency: string,
    duration: Option<int>,
    vials1g: Option<int>,
    vials05g: Option<int>,
    pharmacistId: string)

  /** `parseInt(v) || 0`: `NaN` reads as 0 (and 0 stays 0). */
  function OrZero(p: Option<int>): int {
    p.GetOr(0)
  }

  /** The checks of `validateForm`, one per error it can push. */
  datatype Rule =
    | NameGiven
    | AgePositive
    | GenderChosen
    | DiagnosisChosen
    | AllergyChosen
    | FrequencyChosen
    | DurationPositive
    | SomethingDispensed

  /** The order in which `validateForm` checks them. */
  const Rules: seq<Rule> := [
    NameGiven, AgePositive, GenderChosen, DiagnosisChosen,
    AllergyChosen, FrequencyChosen, DurationPositive, SomethingDispensed
  ]

  /** `calculateTotalAmount`: the form's dose in half-grams. */
  function FormHalves(f: Form): int {
    HalfGrams(OrZero(f.vials1g), OrZero(f.vials05g))
  }

  /** Whether the form passes one check. */
  predicate Holds(rule: Rule, f: Form) {
    match rule
    case NameGiven => Trim(f.patientName) != ""
    case AgePositive => OrZero(f.age) > 0
    case GenderChosen => f.gender != ""
    case DiagnosisChosen => f.diagnosis != ""
    case AllergyChosen => f.allergyTest != ""
    case FrequencyChosen => f.frequency != ""
    case DurationPositive => OrZero(f.duration) > 0
    case SomethingDispensed => FormHalves(f) != 0
  }

  /** The message pushed when a check fails. */
  function Message(rule: Rule): string {
    match rule
    case NameGiven => "Patient name is required"
    case AgePositive => "Please enter a valid age"
    case GenderChosen => "Please select a gender"
    case DiagnosisChosen => "Please select a diagnosis"
    case AllergyChosen => "Please select allergy test result"
    case FrequencyChosen => "Please select a frequency"
    case DurationPositive => "Please enter a valid duration in days"
    case SomethingDispensed => "Please dispense at least one vial"
  }

  /** Distinct checks report distinct messages, so a message names its check. */
  lemma MessagesDistinct(a: Rule, b: Rule)
    ensures Message(a) == Message(b) ==> a == b
  {
  }

  /** The one-element error list of a check, if it fails. */
  function Check(rule: Rule, f: Form): seq<Rule> {
    if Holds(rule, f) then [] else [rule]
  }

  /** The failing checks among `rules`, in order. */
  function FailedRules(rules: seq<Rule>, f: Form): seq<Rule> {
    if rules == [] then [] else FailedRules(rules[..|rules| - 1], f) + Check(rules[|rules| - 1], f)
  }

  /**
    * The error list `validateForm` returns: one entry per failing check, in
    * the order it makes them, each written as the check whose `Message` it is.
    */
  function Errors(f: Form): seq<Rule> {
    Check(NameGiven, f) + Check(AgePositive, f) + Check(GenderChosen, f) + Check(DiagnosisChosen, f)
    + Check(AllergyChosen, f) + Check(FrequencyChosen, f) + Check(DurationPositive, f)
    + Check(SomethingDispensed, f)
  }

  /** The `{ isValid, errors }` object of `validateForm`. */
  datatype Validity = Validity(isValid: bool, errors: seq<Rule>)

  /** `validateForm`: runs the checks in order, pushing an error for each failure. */
  method ValidateForm(f: Form) returns (v: Validity)
    ensures v.errors == Errors(f)
    ensures v.isValid <==> v.errors == []
  {
    var errors := ValidatePatient(f);
    errors := ValidateTreatment(f, errors);
    v := Validity(errors == [], errors);
  }

  /** The first half of `validateForm`: the checks on the patient. */
  method ValidatePatient(f: Form) returns (errors: seq<Rule>)
    ensures errors == Check(NameGiven, f) + Check(AgePositive, f) + Check(GenderChosen, f) + Check(DiagnosisChosen, f)
  {
    errors := [];
    var patientName := Trim(f.patientName);
    var age := OrZero(f.age);
    if patientName == "" {
      errors := errors + [NameGiven];
    }
    if age <= 0 {
      errors := errors + [AgePositive];
    }
    if f.gender == "" {
      errors := errors + [GenderChosen];
    }
    if f.diagnosis == "" {
      errors := errors + [DiagnosisChosen];
    }
  }

  /** The second half of `validateForm`: the checks on the treatment, pushed after those on the patient. */
  method ValidateTreatment(f: Form, errors: seq<Rule>) returns (errors': seq<Rule>)
    ensures errors' == errors + Check(AllergyChosen, f) + Check(FrequencyChosen, f)
                      + Check(DurationPositive, f) + Check(SomethingDispensed, f)
  {
    errors' := errors;
    var duration := OrZero(f.duration);
    var vials1g := OrZero(f.vials1g);
    var vials05g := OrZero(f.vials05g);
    if f.allergyTest == "" {
      errors' := errors' + [AllergyChosen];
    }
    if f.frequency == "" {
      errors' := errors' + [FrequencyChosen];
    }
    if duration <= 0 {
      errors' := errors' + [DurationPositive];
    }
    var totalHalves := HalfGrams(vials1g, vials05g);
    if totalHalves == 0 {
      errors' := errors' + [SomethingDispensed];
    }
  }

  /** The error list spelled out check by check. */
  lemma ErrorsInOrder(f: Form)
    ensures Errors(f) == FailedRules(Rules, f)
  {
    FailedRulesOfEight(NameGiven, AgePositive, GenderChosen, DiagnosisChosen,
                       AllergyChosen, FrequencyChosen, DurationPositive, SomethingDispensed, f);
  }

  /** The failed checks among eight are the failures of each, one after the other. */
  lemma FailedRulesOfEight(r0: Rule, r1: Rule, r2: Rule, r3: Rule, r4: Rule, r5: Rule, r6: Rule, r7: Rule, f: Form)
    ensures FailedRules([r0, r1, r2, r3, r4, r5, r6, r7], f) ==
      Check(r0, f) + Check(r1, f) + Check(r2, f) + Check(r3, f)
      + Check(r4, f) + Check(r5, f) + Check(r6, f) + Check(r7, f)
  {
    EightBuiltUp(r0, r1, r2, r3, r4, r5, r6, r7);
    FailedRulesSnoc([], r0, f);
    FailedRulesSnoc([r0], r1, f);
    FailedRulesSnoc([r0, r1], r2, f);
    FailedRulesSnoc([r0, r1, r2], r3, f);
    FailedRulesSnoc([r0, r1, r2, r3], r4, f);
    FailedRulesSnoc([r0, r1, r2, r3, r4], r5, f);
    FailedRulesSnoc([r0, r1, r2, r3, r4, r5], r6, f);
    FailedRulesSnoc([r0, r1, r2, r3, r4, r5, r6], r7, f);
  }

  /** A list of eight rules, built up one rule at a time. */
  lemma EightBuiltUp(r0: Rule, r1: Rule, r2: Rule, r3: Rule, r4: Rule, r5: Rule, r6: Rule, r7: Rule)
    ensures [] + [r0] == [r0]
    ensures [r0] + [r1] == [r0, r1]
    ensures [r0, r1] + [r2] == [r0, r1, r2]
    ensures [r0, r1, r2] + [r3] == [r0, r1, r2, r3]
    ensures [r0, r1, r2, r3] + [r4] == [r0, r1, r2, r3, r4]
    ensures [r0, r1, r2, r3, r4] + [r5] == [r0, r1, r2, r3, r4, r5]
    ensures [r0, r1, r2, r3, r4, r5] + [r6] == [r0, r1, r2, r3, r4, r5, r6]
    ensures [r0, r1, r2, r3, r4, r5, r6] + [r7] == [r0, r1, r2, r3, r4, r5, r6, r7]
  {
  }

  /** Checking one more rule appends its error, if it fails. */
  lemma FailedRulesSnoc(rules: seq<Rule>, rule: Rule, f: Form)
    ensures FailedRules(rules + [rule], f) == FailedRules(rules, f) + Check(rule, f)
  {
    assert (rules + [rule])[..|rules|] == rules;
  }

  /**
    * A form is valid exactly when the trimmed name is non-empty, the age is
    * positive, gender, diagnosis, allergy result and frequency are chosen,
    * the duration is positive and the dose total is not zero. The name test
    * is the same as "the name holds a character that is not white space".
    */
  lemma ValidIff(f: Form)
    ensures Errors(f) == [] <==>
      && Trim(f.patientName) != ""
      && OrZero(f.age) > 0
      && f.gender != ""
      && f.diagnosis != ""
      && f.allergyTest != ""
      && f.frequency != ""
      && OrZero(f.duration) > 0
      && OrZero(f.vials1g) as real + OrZero(f.vials05g) as real * 0.5 != 0.0
    ensures Trim(f.patientName) != "" <==> exists i | 0 <= i < |f.patientName| :: !IsJsSpace(f.patientName[i])
  {
    ErrorsInOrder(f);
    TrimEmptyIff(f.patientName);
  }

  /** A check is among the reported errors exactly when it is one of `rules` and fails. */
  lemma {:induction false} InFailedRulesIff(rules: seq<Rule>, f: Form, rule: Rule)
    ensures rule in FailedRules(rules, f) <==> rule in rules && !Holds(rule, f)
  {
    if rules != [] {
      var init := rules[..|rules| - 1];
      InFailedRulesIff(init, f, rule);
      assert rules == init + [rules[|rules| - 1]];
    }
  }

  /** The error list names every failed check and nothing else. */
  lemma ErrorIffRuleFails(f: Form, rule: Rule)
    ensures rule in Errors(f) <==> !Holds(rule, f)
  {
    ErrorsInOrder(f);
    InFailedRulesIff(Rules, f, rule);
  }

  /**
    * Fields that do not parse as numbers read as 0, so an unparsable age,
    * duration or pair of dose counts is always reported.
    */
  lemma UnparsedNumbersRejected(f: Form)
    ensures f.age == None ==> AgePositive in Errors(f)
    ensures f.duration == None ==> DurationPositive in Errors(f)
    ensures f.vials1g == None && f.vials05g == None ==> SomethingDispensed in Errors(f)
  {
    ErrorIffRuleFails(f, AgePositive);
    ErrorIffRuleFails(f, DurationPositive);
    ErrorIffRuleFails(f, SomethingDispensed);
  }

  /** No error is reported exactly when every check among `rules` passes. */
  lemma NoFailedRulesIff(rules: seq<Rule>, f: Form)
    ensures FailedRules(rules, f) == [] <==> forall k | 0 <= k < |rules| :: Holds(rules[k], f)
  {
    if FailedRules(rules, f) != [] {
      var x := FailedRules(rules, f)[0];
      InFailedRulesIff(rules, f, x);
    } else {
      forall k | 0 <= k < |rules| ensures Holds(rules[k], f) {
        InFailedRulesIff(rules, f, rules[k]);
      }
    }
  }

  /** The first reported error is the first check, in order, that fails. */
  lemma {:induction false} FirstFailedRule(rules: seq<Rule>, f: Form)
    requires FailedRules(rules, f) != []
    ensures exists k | 0 <= k < |rules| ::
      && !Holds(rules[k], f)
      && (forall j | 0 <= j < k :: Holds(rules[j], f))
      && FailedRules(rules, f)[0] == rules[k]
  {
    var init := rules[..|rules| - 1];
    var last := |rules| - 1;
    if FailedRules(init, f) != [] {
      FirstFailedRule(init, f);
      var k :| 0 <= k < |init| && !Holds(init[k], f)
        && (forall j | 0 <= j < k :: Holds(init[j], f))
        && FailedRules(init, f)[0] == init[k];
      assert forall j | 0 <= j <= k :: rules[j] == init[j];
      assert !Holds(rules[k], f) && FailedRules(rules, f)[0] == rules[k];
    } else {
      NoFailedRulesIff(init, f);
      assert forall j | 0 <= j < last :: rules[j] == init[j];
      assert !Holds(rules[last], f) && FailedRules(rules, f)[0] == rules[last];
    }
  }

  /**
    * The message `submitRecord` shows for an invalid form, `errors[0]`: the
    * message of the first check in order that fails.
    */
  function ReportedError(f: Form): (msg: string)
    requires Errors(f) != []
    ensures exists k | 0 <= k < |Rules| ::
      && !Holds(Rules[k], f)
      && (forall j | 0 <= j < k :: Holds(Rules[j], f))
      && msg == Message(Rules[k])
  {
    ErrorsInOrder(f);
    FirstFailedRule(Rules, f);
    Message(Errors(f)[0])
  }

  /**
    * The check on the dose only asks for a non-zero total: a negative vial
    * count on its own passes it.
    */
  lemma NegativeDosePasses()
    ensures Holds(SomethingDispensed, Form("A", Some(30), "Male", "Sepsis", "No", "Q8H", Some(7), Some(-1), None, ""))
  {
  }

  /**
    * `getFormData` plus the fields `submitRecord` adds: the trimmed name and
    * pharmacist id, the parsed numbers, a total computed from the same
    * counts that are stored, the creation time, and Pending sync state.
    */
  function NewEntry(f: Form, now: Timestamp): (e: Entry)
    ensures WellFormed(e)
    ensures e.totalHalves == FormHalves(f)
    ensures e.totalHalves as real / 2.0 == e.vials1g as real + e.vials05g as real * 0.5
    ensures e.createdAt == now && !e.synced && e.syncedAt == None
  {
    Entry(
      Trim(f.patientName), OrZero(f.age), f.gender, f.diagnosis, f.allergyTest,
      OrZero(f.vials1g), OrZero(f.vials05g), f.frequency, OrZero(f.duration),
      Trim(f.pharmacistId), FormHalves(f), now, false, None)
  }

  /**
    * A form that passes validation yields a record with a name, a positive
    * age and duration, every choice made and a non-zero dose.
    */
  lemma ValidFormGivesCompleteEntry(f: Form, now: Timestamp)
    requires Errors(f) == []
    ensures var e := NewEntry(f, now);
      && e.patientName != "" && e.age > 0 && e.duration > 0 && e.totalHalves != 0
      && e.gender != "" && e.diagnosis != "" && e.allergyTest != "" && e.frequency != ""
  {
    ValidIff(f);
  }
}
