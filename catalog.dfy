/** The fixed catalog of the medical expert system: the symptoms a user can
    tick, the ordered mapping from illness to its required symptoms, and the
    rule strings told to the knowledge base after the facts. */
module Catalog {

  datatype Option<T> = None | Some(value: T)

  /** One key/value pair of the ordered illness mapping. */
  datatype Entry = Entry(illness: string, required: seq<string>)

  /** The symptom names offered as checkboxes, in display order. */
  const Symptoms: seq<string> := [
    "Fever", "Cough", "Headache", "SoreThroat", "Fatigue", "MuscleAches", "RunnyNose",
    "ShortnessOfBreath", "LossOfTaste", "LossOfSmell", "ChestPain", "Nausea", "Diarrhea",
    "Dizziness", "DifficultySwallowing", "JointPain", "SkinRash", "SwollenLymphNodes", "AbdominalPain"
  ]

  /** The illness mapping, in insertion order. */
  const Illnesses: seq<Entry> := [
    Entry("CommonCold", ["Fever", "Cough"]),
    Entry("Flu", ["Fever", "Cough", "Headache"]),
    Entry("StrepThroat", ["SoreThroat", "Fever"]),
    Entry("Allergies", ["RunnyNose"]),
    Entry("COVID19", ["Fever", "Cough", "Fatigue", "MuscleAches"]),
    Entry("Pneumonia", ["Fever", "Cough", "ShortnessOfBreath"]),
    Entry("Asthma", ["Cough", "ChestPain", "ShortnessOfBreath"]),
    Entry("Bronchitis", ["Fever", "Cough", "Wheezing"]),
    Entry("Gastroenteritis", ["Fever", "Nausea", "Diarrhea"]),
    Entry("Sinusitis", ["Fever", "RunnyNose"]),
    Entry("Migraine", ["Headache", "Nausea"]),
    Entry("LymeDisease", ["Fever", "JointPain", "SkinRash"]),
    Entry("Mononucleosis", ["Fever", "Headache", "SwollenLymphNodes"]),
    Entry("Hypertension", ["Fatigue", "Headache", "Hypertension"]),
    Entry("GERD", ["AbdominalPain", "Nausea"]),
    Entry("UTI", ["Fever", "PainDuringUrination"]),
    Entry("OtisMedia", ["EarPain", "Fever"])
  ]

  /** The rule strings, in the order they are told. */
  const Rules: seq<string> := [
    "CommonCold(Fever) & CommonCold(Cough) ==> CommonCold(x)",
    "Flu(Fever) & Flu(Cough) & Flu(Headache) ==> Flu(x)",
    "StrepThroat(SoreThroat) & StrepThroat(Fever) ==> StrepThroat(x)",
    "Allergies(RunnyNose) ==> Allergies(x)",
    "COVID19(Fever) & COVID19(Cough) & COVID19(Fatigue) & COVID19(MuscleAches) ==> COVID19(x)",
    "Pneumonia(Fever) & Pneumonia(Cough) & Pneumonia(ShortnessOfBreath) & Pneumonia(Fatigue) ==> Pneumonia(x)",
    "COVID19(Fever) & COVID19(Cough) & COVID19(LossOfTaste) & COVID19(LossOfSmell) ==> COVID19(x)",
    "Asthma(Cough) & Asthma(ChestPain) & Asthma(ShortnessOfBreath) ==> Asthma(x)",
    "Gastroenteritis(Fever) & Gastroenteritis(MuscleAches) & Gastroenteritis(Diarrhea) ==> Gastroenteritis(x)",
    "Sinusitis(Fever) & Sinusitis(RunnyNose) ==> Sinusitis(x)",
    "Migraine(Headache) & Migraine(Nausea) ==> Migraine(x)",
    "Mononucleosis(Fever) & Mononucleosis(Headache) & Mononucleosis(SwollenLymphNodes) ==> Mononucleosis(x)",
    "LymeDisease(Fever) & LymeDisease(JointPain) & LymeDisease(SkinRash) ==> LymeDisease(x)",
    "StrepThroat(Fever) & StrepThroat(Headache) & StrepThroat(DifficultySwallowing) ==> StrepThroat(x)",
    "Pneumonia(Fever) & Pneumonia(Cough) & Pneumonia(Dizziness) ==> Pneumonia(x)",
    "GERD(AbdominalPain) & GERD(Nausea) ==> GERD(x)",
    "UTI(Fever) & UTI(PainDuringUrination) ==> UTI(x)",
    "Bronchitis(Fever) & Bronchitis(Cough) & Bronchitis(Wheezing) ==> Bronchitis(x)",
    "Hypertension(Fatigue) & Hypertension(Headache) & Hypertension(Hypertension) ==> Hypertension(x)"
  ]

  /** The keys of an ordered mapping, in order. */
  function Keys(es: seq<Entry>): (ks: seq<string>)
    ensures |ks| == |es|
    ensures forall i :: 0 <= i < |es| ==> ks[i] == es[i].illness
  {
    if es == [] then [] else [es[0].illness] + Keys(es[1..])
  }

  /** No key occurs twice: what a dictionary guarantees. */
  predicate UniqueKeys(es: seq<Entry>) {
    forall i, j :: 0 <= i < j < |es| ==> es[i].illness != es[j].illness
  }

  /** The catalog invariant: keys are unique and no illness has an empty
      list of required symptoms. */
  predicate WellFormed(es: seq<Entry>) {
    UniqueKeys(es) && forall i :: 0 <= i < |es| ==> es[i].required != []
  }

  /** Dictionary lookup `illnesses[name]`, with absence made explicit. */
  function Lookup(es: seq<Entry>, name: string): (r: Option<seq<string>>)
    ensures r.None? <==> name !in Keys(es)
  {
    if es == [] then None
    else if es[0].illness == name then Some(es[0].required)
    else Lookup(es[1..], name)
  }

  /** With unique keys, looking up the key of entry `i` gives entry `i`'s list. */
  lemma {:induction false} LookupAt(es: seq<Entry>, i: nat)
    requires UniqueKeys(es) && i < |es|
    ensures Lookup(es, es[i].illness) == Some(es[i].required)
  {
    if i > 0 {
      assert es[0].illness != es[i].illness;
      assert es[1..][i - 1] == es[i];
      LookupAt(es[1..], i - 1);
    }
  }

  /** The catalog as written satisfies the catalog invariant. */
  lemma IllnessesWellFormed()
    ensures WellFormed(Illnesses)
  {
    IllnessKeysUnique();
  }

  /** The illness names of the catalog are pairwise distinct. */
  lemma IllnessKeysUnique()
    ensures UniqueKeys(Illnesses)
  {
    forall i, j | 0 <= i < j < |Illnesses| ensures Illnesses[i].illness != Illnesses[j].illness {
      assert |Illnesses[i].illness| != |Illnesses[j].illness| || Illnesses[i].illness[0] != Illnesses[j].illness[0];
    }
  }
}
