# Medical expert system: diagnostic filter and knowledge-base construction

This project models the core of a small rule-based medical expert system written in Python.
The system has a fixed catalog: 19 symptom names offered as checkboxes, 17 illnesses, each mapped to an ordered list of required symptoms, and 19 rule strings.
The `setup_kb` function builds a first-order knowledge base from the catalog.
It tells one fact `Illness('Symptom')` for every (illness, symptom) pair, in catalog order and with no deduplication.
It then tells every rule string in list order.
On every submit, `show_illness` reads the ticked boxes and rebuilds the knowledge base.
It then visits the illnesses in catalog order.
An illness is kept when the backward chainer answers its query and every symptom on its catalog list is selected.

The model has four modules:

- `Catalog` (`catalog.dfy`): the catalog as constants, the ordered mapping as a sequence of `Entry` values, dictionary lookup, and the catalog invariant. The invariant is that keys are unique and no list is empty.
- `Kb` (`kb.dfy`): told clauses, a `KnowledgeBase` class whose `Tell` appends, and the loops of `setup_kb` as methods. `Tell` is proved to append its clause, `TellCatalogFacts` to append `CatalogFacts`, and `TellRules` to append `RuleClauses`. `BuildKb` and `SetupKb` are proved to produce `KbClauses`, the facts followed by the rules. Lemmas state what these functions contain.
- `Diagnosis` (`diagnosis.dfy`): the checkbox selection, the `all(...)` test, the loop of `show_illness` as a method proved against the reference function `Diagnose`, and the laws of the filter. The laws are exact match, soundness, completeness, catalog order, at most once, monotonicity, empty selection, and independence from the chainer's answer and from the rules.
- `Scenarios` (`scenarios.dfy`): consequences for the real catalog. Four illnesses can never be reported from checkbox input, plus the concrete selections.

The backward chainer `fol_bc_ask` comes from a library that is not part of this model.
Its answer is the parameter `ask`, a function of the knowledge base's clauses and the queried illness, and it stands for the truth value of the object the library returns.
Two readings are given and proved to agree on the real catalog:

- `GeneratorTruthy`: the library returns a generator object, which Python always treats as true.
- `FactLevelProvable`: some told fact has the illness as its predicate.

Every catalog illness has such a fact, because its list is non-empty.
Under either reading, the report depends only on the catalog lists and the selection, not on the rule strings.

## Model

| member | source | states |
|---|---|---|
| `Catalog.Symptoms` | main.py:7-9 | The 19 offered symptom names, transcribed verbatim in display order. |
| `Catalog.Illnesses` | main.py:11-29 | The 17 illness entries with their symptom lists, transcribed verbatim in insertion order. |
| `Catalog.Rules` | main.py:31-89 | The 19 rule strings, transcribed verbatim in list order. |
| `Catalog.Keys` | main.py:132 | The keys of the ordered mapping, one per entry, in insertion order. |
| `Catalog.Lookup` | main.py:135 | `illnesses[name]` is absent exactly when the name is not a key. |
| `Catalog.LookupAt` | main.py:11-29 | With unique keys, looking up entry i's name gives entry i's symptom list. |
| `Catalog.IllnessKeysUnique` | main.py:11-29 | No illness name occurs twice in the catalog. |
| `Catalog.IllnessesWellFormed` | main.py:11-29 | The catalog's keys are unique and every illness lists at least one symptom. |
| `Kb.KnowledgeBase.constructor` | main.py:94 | A new knowledge base holds no clauses. |
| `Kb.KnowledgeBase.Tell` | main.py:99 | Telling a clause appends it at the end, with no deduplication. |
| `Kb.EntryFacts` | main.py:97-99 | The facts told for one illness; `Kb.EntryFactsAt` and `Kb.EntryFactsAppend` give its meaning. |
| `Kb.CatalogFacts` | main.py:95-99 | The facts told for the whole catalog; `Kb.CatalogFactsLength`, `Kb.CatalogFactAt`, `Kb.CatalogFactFrom` and `Kb.CatalogFactsAreFacts` give its meaning. |
| `Kb.RuleClauses` | main.py:101-102 | The rules as told clauses; `Kb.RuleClausesAt` gives its meaning. |
| `Kb.KbClauses` | main.py:94-103 | The whole knowledge base; `Kb.KbLayout` and `Kb.FactLevelProvableIffKey` give its meaning. |
| `Kb.FactLevelProvable` | main.py:133-134 | The fact-level reading of the chainer's answer: some told fact has the illness as predicate. `Kb.FactLevelProvableIffKey` characterises it. |
| `Kb.EntryFactsAt` | main.py:96-99 | One illness contributes exactly one fact per list element, at that element's position, repeats included. |
| `Kb.RuleClausesAt` | main.py:101-102 | Every rule string is told as one clause, in list order. |
| `Kb.CatalogFactsLength` | main.py:95-99 | The number of told facts equals the total length of all catalog lists. |
| `Kb.CatalogFactAt` | main.py:95-99 | Symptom j of entry i is told as `Fact(illness_i, symptom_ij)` at position `Offset(i) + j`, which is catalog order. |
| `Kb.CatalogFactFrom` | main.py:95-99 | Every told fact comes from some (illness, symptom) pair of the catalog. |
| `Kb.EntryFactsAppend` | main.py:97-99 | The facts for a concatenated symptom list are the concatenation of the facts for each part. |
| `Kb.CatalogFactsAppend` | main.py:95-99 | The facts for a concatenated catalog are the concatenation of the facts for each part. |
| `Kb.RuleClausesAppend` | main.py:101-102 | The clauses for a concatenated rule list are the concatenation of the clauses for each part. |
| `Kb.CatalogFactsAreFacts` | main.py:95-99 | The first phase of construction tells only facts. |
| `Kb.KbLayout` | main.py:94-103 | The knowledge base is the catalog facts followed by exactly the rules in list order, and nothing else. |
| `Kb.TellCatalogFacts` | main.py:95-99 | The nested loop appends exactly the catalog facts to the knowledge base. |
| `Kb.TellRules` | main.py:101-102 | The rule loop appends exactly the rule clauses. |
| `Kb.BuildKb` | main.py:92-103 | A fresh knowledge base holding exactly the facts of the given catalog, then its rules. |
| `Kb.SetupKb` | main.py:92-103 | `setup_kb` returns a fresh knowledge base whose clauses are the real catalog's facts, then its 19 rules. |
| `Kb.CatalogIllnessProvable` | main.py:95-99 | In a well-formed catalog, every illness has a told fact with its name as predicate. |
| `Kb.FactLevelProvableIffKey` | main.py:95-103 | A name has a fact-level proof if and only if it is a catalog key; the rules add none. |
| `Diagnosis.SelectedSymptoms` | main.py:129 | A name is selected if and only if some ticked box carries it; there are at most as many selected names as boxes. |
| `Diagnosis.AllSymptomsMatched` | main.py:135 | The `all(...)` test holds if and only if every required symptom is among the selected ones. |
| `Diagnosis.Reported` | main.py:134-136 | One entry passes both checks of the loop body: the chainer answers its query and `all(...)` holds. `Diagnosis.DiagnoseMembers` uses it. |
| `Diagnosis.Diagnose` | main.py:131-137 | The reference definition of the kept list; `Diagnosis.DiagnoseMembers`, `Diagnosis.ExactMatch`, `Diagnosis.Sound`, `Diagnosis.Complete`, `Diagnosis.CatalogOrder`, `Diagnosis.ReportedOnce`, `Diagnosis.Monotone` and `Diagnosis.EmptySelection` give its meaning. |
| `Diagnosis.Answered` | main.py:133-134 | The chainer answers the query of every catalog entry. |
| `Diagnosis.ExactReport` | main.py:132-137 | The exact-match law as a property of a report. |
| `Diagnosis.GeneratorTruthy` | main.py:133-134 | The always-truthy reading of `if result:`: the library returns a generator object. `Diagnosis.ReadingsAgree` relates it to `Kb.FactLevelProvable`. |
| `Diagnosis.FilterIllnesses` | main.py:131-137 | The loop's kept list is exactly `Diagnose` of the catalog, the selection and the chainer's answers. With unique keys and every entry answered, it obeys the exact-match law. |
| `Diagnosis.ShowIllness` | main.py:127-137 | Reading the boxes, building the knowledge base and filtering gives `Diagnose` of the real catalog on the ticked labels. |
| `Diagnosis.DiagnoseMembers` | main.py:132-137 | A name is reported if and only if some entry with that name has a positive answer and all its symptoms selected. |
| `Diagnosis.ExactMatch` | main.py:132-137 | With unique keys and every catalog illness answered, a name is reported if and only if it is a key whose whole list is selected. |
| `Diagnosis.Sound` | main.py:134-137 | Whatever is reported is a key, was answered by the chainer, and has every listed symptom selected. |
| `Diagnosis.Complete` | main.py:133-137 | A key that the chainer answers and whose whole list is selected is reported. Other rules for that illness play no part. |
| `Diagnosis.BlockedBy` | main.py:135-137 | A single required symptom missing from the selection keeps the illness out of the report. |
| `Diagnosis.DiagnoseAppend` | main.py:132-137 | The report for a concatenated catalog is the concatenation of the two reports. |
| `Diagnosis.NoneReported` | main.py:132-137 | If no entry passes both checks, the report is empty. |
| `Diagnosis.SingleCandidate` | main.py:132-137 | If exactly one entry passes both checks, the report is exactly that entry's name. |
| `Diagnosis.ProvableOnKeysOnly` | main.py:132-134 | Two chainer answers that agree on the catalog keys give the same report. |
| `Diagnosis.ReadingsAgree` | main.py:92-137 | For a well-formed catalog and any rule list, the fact-level reading and the always-truthy reading give the same report. |
| `Diagnosis.CatalogOrder` | main.py:132-137 | The report is a subsequence of the catalog keys, so it follows catalog order. |
| `Diagnosis.ReportedOnce` | main.py:132-137 | With unique keys, no illness is reported twice. |
| `Diagnosis.Monotone` | main.py:135 | Selecting more symptoms never removes an illness. The smaller report is a subsequence of the larger one. |
| `Diagnosis.EmptySelection` | main.py:135 | In a well-formed catalog, an empty selection reports nothing. |
| `Diagnosis.ShowIllnessReadingsAgree` | main.py:130-134 | For the real catalog and rules, both readings of the chainer's answer give the same report. |
| `Diagnosis.ShowIllnessExactMatch` | main.py:132-137 | For the real catalog, under `GeneratorTruthy`, an illness is reported if and only if it is a key whose whole list is selected. Through `Diagnosis.ShowIllnessReadingsAgree` the same holds under the fact-level reading. |
| `Diagnosis.ExactReportFrom` | main.py:132-137 | With unique keys and every entry answered, the whole report obeys the exact-match law. |
| `Diagnosis.CatalogExactReport` | main.py:127-137 | For the real catalog, any knowledge base and any chainer that answers every catalog illness, the report obeys the exact-match law. With the knowledge base of `setup_kb` and the ticked labels, this is the report `ShowIllness` returns. |
| `Scenarios.AllProvable` | main.py:133-134 | The chainer answers every illness of the real catalog. |
| `Scenarios.TruthyAllProvable` | main.py:133-134 | The always-truthy reading answers every catalog illness. |
| `Scenarios.FactLevelAllProvable` | main.py:92-103 | The fact-level reading answers every catalog illness of the knowledge base `setup_kb` builds. |
| `Scenarios.NotOffered` | main.py:7-9 | Wheezing, Hypertension, PainDuringUrination and EarPain are not among the offered symptoms. |
| `Scenarios.SelectionFromCheckboxes` | main.py:129 | When every box is labelled with an offered symptom, every selected name is an offered symptom. |
| `Scenarios.UnreportableFromCheckboxes` | main.py:7-29 | From offered symptoms alone, Bronchitis, Hypertension, UTI and OtisMedia are never reported. |
| `Scenarios.NothingSelected` | main.py:129-137 | An empty selection gives an empty report. |
| `Scenarios.FeverCoughCommonCold` | main.py:12 | {Fever, Cough} reports CommonCold. |
| `Scenarios.FeverCoughNoFlu` | main.py:13 | {Fever, Cough} does not report Flu, because Headache is missing. |
| `Scenarios.FeverCoughHeadache` | main.py:12-13 | {Fever, Cough, Headache} reports both CommonCold and Flu. |
| `Scenarios.StrepThroatSelected` | main.py:14 | {SoreThroat, Fever, Headache, DifficultySwallowing} reports StrepThroat through its catalog list. |
| `Scenarios.RunnyNoseOnly` | main.py:15 | {RunnyNose} reports exactly [Allergies]. |

## Left out

- The PyQt5 window is not modelled: layout, checkbox creation, the submit button, the result dialogs and application start-up (main.py:106-126, 139-151). These are presentation only. The checkboxes appear only as `CheckBox` values, a label and a ticked flag.
- The debug `print(clause)` in `setup_kb` (main.py:98) is left out because it is output only.
- The logic library's `FolKB`, `expr` and `fol_bc_ask` are foreign code and not part of this model. A fact is kept as its predicate and argument, and a rule as its text. No rule text is parsed, and no unification or backward chaining is modelled. The chainer's answer is the parameter `ask`.
- Whether rule premises unify with the told facts is not modelled. Facts quote the symptom as a string and rule premises use bare symbols, and the outcome depends on the library's `expr`.
- The loop looks up `illnesses[illness]` for each key. The model reads the visited entry's own list instead. `Catalog.LookupAt` proves the two agree when keys are unique.
- The selection is a list, as in the code, not a set, so a repeated label would simply appear twice.

## Catalog quirks

The catalog's data has these quirks, and they are modelled as written:

- Bronchitis needs Wheezing, which no checkbox offers.
- Hypertension lists itself as a symptom.
- UTI needs PainDuringUrination and OtisMedia needs EarPain, and no checkbox offers either.

`Scenarios.UnreportableFromCheckboxes` proves their consequence.
