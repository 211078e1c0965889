/** Consequences of the diagnostic filter for the real catalog: illnesses the
    window can never report, and concrete selections. */
module Scenarios {
  import opened Catalog
  import opened Kb
  import opened Diagnosis

  /** Every catalog illness gets a positive answer from the chainer; both
      readings of its answer satisfy this. */
  predicate AllProvable(provable: string -> bool) {
    forall i :: 0 <= i < |Illnesses| ==> provable(Illnesses[i].illness)
  }

  /** The always-truthy reading answers every catalog illness. */
  lemma TruthyAllProvable(kb: seq<Clause>)
    ensures AllProvable(n => GeneratorTruthy(kb, n))
  {
  }

  /** The fact-level reading answers every catalog illness of the knowledge
      base `setup_kb` builds. */
  lemma FactLevelAllProvable()
    ensures AllProvable(n => FactLevelProvable(KbClauses(Illnesses, Rules), n))
  {
    IllnessesWellFormed();
    forall i | 0 <= i < |Illnesses| ensures FactLevelProvable(KbClauses(Illnesses, Rules), Illnesses[i].illness) {
      CatalogIllnessProvable(Illnesses, Rules, i);
    }
  }

  /** The symptoms that some catalog list requires but no checkbox offers. */
  lemma NotOffered()
    ensures "Wheezing" !in Symptoms && "Hypertension" !in Symptoms
    ensures "PainDuringUrination" !in Symptoms && "EarPain" !in Symptoms
  {
    forall k | 0 <= k < |Symptoms|
      ensures Symptoms[k] != "Wheezing" && Symptoms[k] != "Hypertension"
      ensures Symptoms[k] != "PainDuringUrination" && Symptoms[k] != "EarPain"
    {
      assert Symptoms[k][0] != 'W' && Symptoms[k][0] != 'P' && Symptoms[k][0] != 'E' && |Symptoms[k]| != 12;
    }
  }

  /** The ticked labels of a window whose boxes carry catalog symptom names
      are catalog symptom names. */
  lemma SelectionFromCheckboxes(boxes: seq<CheckBox>)
    requires forall k :: 0 <= k < |boxes| ==> boxes[k].text in Symptoms
    ensures forall s :: s in SelectedSymptoms(boxes) ==> s in Symptoms
  {
  }

  /** Bronchitis, Hypertension, UTI and OtisMedia can never be reported from
      a selection of offered symptoms, because each needs a symptom no
      checkbox offers. */
  lemma UnreportableFromCheckboxes(selected: seq<string>, provable: string -> bool)
    requires forall s :: s in selected ==> s in Symptoms
    ensures var d := Diagnose(Illnesses, selected, provable);
      "Bronchitis" !in d && "Hypertension" !in d && "UTI" !in d && "OtisMedia" !in d
  {
    NotOffered();
    IllnessKeysUnique();
    BlockedBy(Illnesses, selected, provable, 7, "Wheezing");
    BlockedBy(Illnesses, selected, provable, 13, "Hypertension");
    BlockedBy(Illnesses, selected, provable, 15, "PainDuringUrination");
    BlockedBy(Illnesses, selected, provable, 16, "EarPain");
  }

  /** Nothing ticked: no illness is reported. */
  lemma NothingSelected(provable: string -> bool)
    ensures Diagnose(Illnesses, [], provable) == []
  {
    IllnessesWellFormed();
    EmptySelection(Illnesses, provable);
  }

  /** Fever and Cough: CommonCold is reported. */
  lemma FeverCoughCommonCold(provable: string -> bool)
    requires AllProvable(provable)
    ensures "CommonCold" in Diagnose(Illnesses, ["Fever", "Cough"], provable)
  {
    IllnessKeysUnique();
    LookupAt(Illnesses, 0);
    Complete(Illnesses, ["Fever", "Cough"], provable, "CommonCold");
  }

  /** Fever and Cough: Flu is not reported, for want of Headache. */
  lemma FeverCoughNoFlu(provable: string -> bool)
    ensures "Flu" !in Diagnose(Illnesses, ["Fever", "Cough"], provable)
  {
    IllnessKeysUnique();
    BlockedBy(Illnesses, ["Fever", "Cough"], provable, 1, "Headache");
  }

  /** Fever, Cough and Headache: both CommonCold and Flu are reported. */
  lemma FeverCoughHeadache(provable: string -> bool)
    requires AllProvable(provable)
    ensures var d := Diagnose(Illnesses, ["Fever", "Cough", "Headache"], provable);
      "CommonCold" in d && "Flu" in d
  {
    var selected := ["Fever", "Cough", "Headache"];
    IllnessKeysUnique();
    LookupAt(Illnesses, 0);
    LookupAt(Illnesses, 1);
    Complete(Illnesses, selected, provable, "CommonCold");
    Complete(Illnesses, selected, provable, "Flu");
  }

  /** SoreThroat, Fever, Headache and DifficultySwallowing: StrepThroat is
      reported through its catalog list alone. */
  lemma StrepThroatSelected(provable: string -> bool)
    requires AllProvable(provable)
    ensures "StrepThroat" in Diagnose(Illnesses, ["SoreThroat", "Fever", "Headache", "DifficultySwallowing"], provable)
  {
    IllnessKeysUnique();
    LookupAt(Illnesses, 2);
    Complete(Illnesses, ["SoreThroat", "Fever", "Headache", "DifficultySwallowing"], provable, "StrepThroat");
  }

  /** RunnyNose alone: the report is exactly Allergies. */
  lemma RunnyNoseOnly(provable: string -> bool)
    requires AllProvable(provable)
    ensures Diagnose(Illnesses, ["RunnyNose"], provable) == ["Allergies"]
  {
    var selected := ["RunnyNose"];
    forall i | 0 <= i < |Illnesses| && i != 3 ensures !Reported(Illnesses[i], selected, provable) {
      assert i == 0 || i == 1 || i == 2 || i == 4 || i == 5 || i == 6 || i == 7 || i == 8 || i == 9 ||
        i == 10 || i == 11 || i == 12 || i == 13 || i == 14 || i == 15 || i == 16;
      assert Illnesses[i].required[0] != "RunnyNose";
    }
    SingleCandidate(Illnesses, selected, provable, 3);
  }
}
