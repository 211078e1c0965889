/** The diagnostic filter of `show_illness`: for each illness in catalog
    order, ask the backward chainer whether the illness is provable, then
    require every symptom of its catalog list to be among the selected ones.

    The backward chainer belongs to the logic library and is not modelled:
    its answer is the parameter `ask`, a function of the knowledge base's
    clauses and the illness queried, standing for the truth value of the
    object the library returns. */
module Diagnosis {
  import opened Catalog
  import opened Kb

  /** One symptom checkbox of the window: its label and whether it is ticked. */
  datatype CheckBox = CheckBox(text: string, checked: bool)

  /** The selected-symptoms list comprehension: the labels of the ticked
      boxes. */
  function SelectedSymptoms(boxes: seq<CheckBox>): (r: seq<string>)
    ensures |r| <= |boxes|
    ensures forall s :: s in r <==> exists k :: 0 <= k < |boxes| && boxes[k].checked && boxes[k].text == s
  {
    if boxes == [] then []
    else
      var rest := SelectedSymptoms(boxes[1..]);
      assert forall k :: 0 < k < |boxes| ==> boxes[k] == boxes[1..][k - 1];
      if boxes[0].checked then [boxes[0].text] + rest else rest
  }

  /** The `all(symptom in selected_symptoms for symptom in required)` test,
      evaluated left to right. */
  function AllSymptomsMatched(required: seq<string>, selected: seq<string>): (r: bool)
    ensures r <==> forall s :: s in required ==> s in selected
  {
    if required == [] then true
    else required[0] in selected && AllSymptomsMatched(required[1..], selected)
  }

  /** Whether one catalog entry passes both checks of the loop body. */
  predicate Reported(e: Entry, selected: seq<string>, provable: string -> bool) {
    provable(e.illness) && AllSymptomsMatched(e.required, selected)
  }

  /** The list of possible illnesses for a catalog, a selection and a
      provability answer per illness: entries visited in order, the name of
      every entry that passes both checks appended at the end. */
  function Diagnose(es: seq<Entry>, selected: seq<string>, provable: string -> bool): seq<string>
  {
    if es == [] then []
    else
      var last := es[|es| - 1];
      Diagnose(es[..|es| - 1], selected, provable) + (if Reported(last, selected, provable) then [last.illness] else [])
  }

  /** The chainer answers the query of every entry of the catalog. */
  predicate Answered(es: seq<Entry>, provable: string -> bool) {
    forall i :: 0 <= i < |es| ==> provable(es[i].illness)
  }

  /** The exact-match law as a property of a report `r`: a name is in `r`
      if and only if it is a key whose whole list is among the selected
      symptoms. */
  ghost predicate ExactReport(es: seq<Entry>, selected: seq<string>, r: seq<string>) {
    forall name :: name in r <==> Lookup(es, name).Some? && forall s :: s in Lookup(es, name).value ==> s in selected
  }

  /** `a` is `b` with some elements left out, the rest in the same order. */
  predicate Subsequence(a: seq<string>, b: seq<string>)
    decreases |b|
  {
    if b == [] then a == []
    else
      (a != [] && a[|a| - 1] == b[|b| - 1] && Subsequence(a[..|a| - 1], b[..|b| - 1])) ||
      Subsequence(a, b[..|b| - 1])
  }

  predicate NoDuplicates(s: seq<string>) {
    forall i, j :: 0 <= i < j < |s| ==> s[i] != s[j]
  }

  // ---------------------------------------------------------------------
  // The loop of `show_illness`

  /** The loop of `show_illness` over a given catalog: the kept list is
      exactly the reference definition `Diagnose`. */
  method FilterIllnesses(es: seq<Entry>, selected: seq<string>, kb: seq<Clause>, ask: (seq<Clause>, string) -> bool)
    returns (possibleIllnesses: seq<string>)
    ensures possibleIllnesses == Diagnose(es, selected, n => ask(kb, n))
    ensures UniqueKeys(es) && Answered(es, n => ask(kb, n)) ==> ExactReport(es, selected, possibleIllnesses)
  {
    possibleIllnesses := [];
    var i := 0;
    while i < |es|
      invariant 0 <= i <= |es|
      invariant possibleIllnesses == Diagnose(es[..i], selected, n => ask(kb, n))
    {
      var illness := es[i].illness;
      var result := ask(kb, illness);
      if result {
        var allSymptomsMatched := AllSymptomsMatched(es[i].required, selected);
        if allSymptomsMatched {
          possibleIllnesses := possibleIllnesses + [illness];
        }
      }
      assert es[..i + 1][..i] == es[..i];
      i := i + 1;
    }
    assert es[..i] == es;
    if UniqueKeys(es) && Answered(es, n => ask(kb, n)) {
      ExactReportFrom(es, selected, n => ask(kb, n));
    }
  }

  /** `show_illness` without its dialogs: read the ticked boxes, build the
      knowledge base, and filter the catalog. */
  method ShowIllness(boxes: seq<CheckBox>, ask: (seq<Clause>, string) -> bool)
    returns (possibleIllnesses: seq<string>)
    ensures possibleIllnesses == Diagnose(Illnesses, SelectedSymptoms(boxes), n => ask(KbClauses(Illnesses, Rules), n))
  {
    var selectedSymptoms := SelectedSymptoms(boxes);
    var kb := SetupKb();
    possibleIllnesses := FilterIllnesses(Illnesses, selectedSymptoms, kb.clauses, ask);
  }

  /** The first reading of the chainer's answer: the object the library
      returns is a generator, which is always truthy. */
  function GeneratorTruthy(kb: seq<Clause>, illness: string): bool
  {
    true
  }

  // ---------------------------------------------------------------------
  // Laws of the filter

  /** What `Diagnose` reports: exactly the names of entries that pass both
      checks. */
  lemma {:induction false} DiagnoseMembers(es: seq<Entry>, selected: seq<string>, provable: string -> bool, name: string)
    ensures name in Diagnose(es, selected, provable) <==>
      exists i :: 0 <= i < |es| && es[i].illness == name && Reported(es[i], selected, provable)
  {
    if es != [] {
      var n := |es| - 1;
      DiagnoseMembers(es[..n], selected, provable, name);
      if name in Diagnose(es[..n], selected, provable) {
        var i :| 0 <= i < n && es[..n][i].illness == name && Reported(es[..n][i], selected, provable);
        assert es[i] == es[..n][i];
      }
      if exists i :: 0 <= i < |es| && es[i].illness == name && Reported(es[i], selected, provable) {
        var i :| 0 <= i < |es| && es[i].illness == name && Reported(es[i], selected, provable);
        if i < n {
          assert es[..n][i] == es[i];
        }
      }
    }
  }

  /** The exact-match law: with unique keys and every catalog illness
      provable, an illness is reported if and only if it is in the catalog
      and its whole symptom list is among the selected symptoms. */
  lemma ExactMatch(es: seq<Entry>, selected: seq<string>, provable: string -> bool, name: string)
    requires UniqueKeys(es)
    requires forall i :: 0 <= i < |es| ==> provable(es[i].illness)
    ensures name in Diagnose(es, selected, provable) <==>
      Lookup(es, name).Some? && forall s :: s in Lookup(es, name).value ==> s in selected
  {
    DiagnoseMembers(es, selected, provable, name);
    if Lookup(es, name).Some? {
      var i :| 0 <= i < |es| && Keys(es)[i] == name;
      LookupAt(es, i);
    }
  }

  /** Soundness, with any answer from the chainer: whatever is reported has
      every symptom of its catalog list selected. */
  lemma Sound(es: seq<Entry>, selected: seq<string>, provable: string -> bool, name: string)
    requires UniqueKeys(es)
    requires name in Diagnose(es, selected, provable)
    ensures Lookup(es, name).Some? && provable(name)
    ensures forall s :: s in Lookup(es, name).value ==> s in selected
  {
    DiagnoseMembers(es, selected, provable, name);
    var i :| 0 <= i < |es| && es[i].illness == name && Reported(es[i], selected, provable);
    LookupAt(es, i);
  }

  /** Completeness: an illness whose whole catalog list is selected and
      whose query the chainer answers is reported, whatever other rules for
      it say. */
  lemma Complete(es: seq<Entry>, selected: seq<string>, provable: string -> bool, name: string)
    requires UniqueKeys(es)
    requires Lookup(es, name).Some? && provable(name)
    requires forall s :: s in Lookup(es, name).value ==> s in selected
    ensures name in Diagnose(es, selected, provable)
  {
    var i :| 0 <= i < |es| && Keys(es)[i] == name;
    LookupAt(es, i);
    DiagnoseMembers(es, selected, provable, name);
  }

  /** One required symptom missing from the selection keeps the illness out
      of the result. */
  lemma BlockedBy(es: seq<Entry>, selected: seq<string>, provable: string -> bool, i: nat, missing: string)
    requires UniqueKeys(es) && i < |es|
    requires missing in es[i].required && missing !in selected
    ensures es[i].illness !in Diagnose(es, selected, provable)
  {
    LookupAt(es, i);
    if es[i].illness in Diagnose(es, selected, provable) {
      Sound(es, selected, provable, es[i].illness);
    }
  }

  /** The report for a concatenated catalog is the concatenation of the
      reports. */
  lemma {:induction false} DiagnoseAppend(a: seq<Entry>, b: seq<Entry>, selected: seq<string>, provable: string -> bool)
    ensures Diagnose(a + b, selected, provable) == Diagnose(a, selected, provable) + Diagnose(b, selected, provable)
    decreases |b|
  {
    if b == [] {
      assert a + b == a;
    } else {
      var n := |b| - 1;
      assert (a + b)[..|a + b| - 1] == a + b[..n];
      assert (a + b)[|a + b| - 1] == b[n];
      DiagnoseAppend(a, b[..n], selected, provable);
    }
  }

  /** A catalog none of whose entries passes both checks reports nothing. */
  lemma {:induction false} NoneReported(es: seq<Entry>, selected: seq<string>, provable: string -> bool)
    requires forall i :: 0 <= i < |es| ==> !Reported(es[i], selected, provable)
    ensures Diagnose(es, selected, provable) == []
  {
    if es != [] {
      var n := |es| - 1;
      assert forall i :: 0 <= i < n ==> es[..n][i] == es[i];
      NoneReported(es[..n], selected, provable);
    }
  }

  /** When exactly one entry passes both checks, the result is that one name. */
  lemma SingleCandidate(es: seq<Entry>, selected: seq<string>, provable: string -> bool, i0: nat)
    requires i0 < |es| && Reported(es[i0], selected, provable)
    requires forall i :: 0 <= i < |es| && i != i0 ==> !Reported(es[i], selected, provable)
    ensures Diagnose(es, selected, provable) == [es[i0].illness]
  {
    var before, after := es[..i0], es[i0 + 1..];
    assert es == before + [es[i0]] + after;
    assert forall i :: 0 <= i < |before| ==> before[i] == es[i];
    assert forall i :: 0 <= i < |after| ==> after[i] == es[i0 + 1 + i];
    NoneReported(before, selected, provable);
    NoneReported(after, selected, provable);
    DiagnoseAppend(before + [es[i0]], after, selected, provable);
    DiagnoseAppend(before, [es[i0]], selected, provable);
    assert Diagnose([es[i0]], selected, provable) == [es[i0].illness] by {
      assert [es[i0]][..0] == [];
    }
  }

  /** Only the provability answers for catalog keys matter. */
  lemma {:induction false} ProvableOnKeysOnly(es: seq<Entry>, selected: seq<string>, p: string -> bool, q: string -> bool)
    requires forall i :: 0 <= i < |es| ==> p(es[i].illness) == q(es[i].illness)
    ensures Diagnose(es, selected, p) == Diagnose(es, selected, q)
  {
    if es != [] {
      var n := |es| - 1;
      assert forall i :: 0 <= i < n ==> es[..n][i] == es[i];
      ProvableOnKeysOnly(es[..n], selected, p, q);
    }
  }

  /** The two readings of the chainer's answer give the same result, and
      neither depends on the rule strings: the library object is always
      truthy, and a fact-level proof exists for every catalog illness. */
  lemma ReadingsAgree(es: seq<Entry>, rs: seq<string>, selected: seq<string>)
    requires WellFormed(es)
    ensures var kb := KbClauses(es, rs);
      Diagnose(es, selected, n => FactLevelProvable(kb, n)) == Diagnose(es, selected, n => GeneratorTruthy(kb, n))
  {
    var kb := KbClauses(es, rs);
    forall i | 0 <= i < |es| ensures FactLevelProvable(kb, es[i].illness) {
      CatalogIllnessProvable(es, rs, i);
    }
    ProvableOnKeysOnly(es, selected, n => FactLevelProvable(kb, n), n => GeneratorTruthy(kb, n));
  }

  lemma {:induction false} SubsequenceMembers(a: seq<string>, b: seq<string>)
    requires Subsequence(a, b)
    ensures forall x :: x in a ==> x in b
    decreases |b|
  {
    if b != [] {
      var b' := b[..|b| - 1];
      assert b == b' + [b[|b| - 1]];
      if a != [] && a[|a| - 1] == b[|b| - 1] && Subsequence(a[..|a| - 1], b') {
        var a' := a[..|a| - 1];
        SubsequenceMembers(a', b');
        assert a == a' + [a[|a| - 1]];
      } else {
        SubsequenceMembers(a, b');
      }
    }
  }

  /** A subsequence of a list without duplicates has none either. */
  lemma {:induction false} SubsequenceNoDuplicates(a: seq<string>, b: seq<string>)
    requires Subsequence(a, b) && NoDuplicates(b)
    ensures NoDuplicates(a)
    decreases |b|
  {
    if b != [] {
      var b' := b[..|b| - 1];
      assert NoDuplicates(b');
      if a != [] && a[|a| - 1] == b[|b| - 1] && Subsequence(a[..|a| - 1], b') {
        var a' := a[..|a| - 1];
        SubsequenceNoDuplicates(a', b');
        SubsequenceMembers(a', b');
        assert b[|b| - 1] !in b';
        assert a == a' + [a[|a| - 1]];
      } else {
        SubsequenceNoDuplicates(a, b');
      }
    }
  }

  lemma SubsequenceExtend(a: seq<string>, b: seq<string>, x: string)
    requires Subsequence(a, b)
    ensures Subsequence(a + [x], b + [x]) && Subsequence(a, b + [x])
  {
    assert (a + [x])[..|a|] == a && (b + [x])[..|b|] == b;
  }

  /** Keys of a prefix are a prefix of the keys. */
  lemma KeysPrefix(es: seq<Entry>, n: nat)
    requires n <= |es|
    ensures Keys(es[..n]) == Keys(es)[..n]
  {
  }

  /** Catalog order: the reported names appear in the order of the catalog's
      keys. */
  lemma {:induction false} CatalogOrder(es: seq<Entry>, selected: seq<string>, provable: string -> bool)
    ensures Subsequence(Diagnose(es, selected, provable), Keys(es))
  {
    if es != [] {
      var n := |es| - 1;
      var x := es[n].illness;
      var d := Diagnose(es[..n], selected, provable);
      CatalogOrder(es[..n], selected, provable);
      KeysPrefix(es, n);
      assert Keys(es) == Keys(es[..n]) + [x];
      SubsequenceExtend(d, Keys(es[..n]), x);
      assert Diagnose(es, selected, provable) == if Reported(es[n], selected, provable) then d + [x] else d;
    }
  }

  /** With unique keys, each illness is reported at most once. */
  lemma ReportedOnce(es: seq<Entry>, selected: seq<string>, provable: string -> bool)
    requires UniqueKeys(es)
    ensures NoDuplicates(Diagnose(es, selected, provable))
  {
    CatalogOrder(es, selected, provable);
    SubsequenceNoDuplicates(Diagnose(es, selected, provable), Keys(es));
  }

  /** Monotonicity: selecting more symptoms never removes an illness, and
      the smaller result is a subsequence of the larger one. */
  lemma {:induction false} Monotone(es: seq<Entry>, small: seq<string>, large: seq<string>, provable: string -> bool)
    requires forall s :: s in small ==> s in large
    ensures Subsequence(Diagnose(es, small, provable), Diagnose(es, large, provable))
    ensures forall name :: name in Diagnose(es, small, provable) ==> name in Diagnose(es, large, provable)
  {
    if es != [] {
      var n := |es| - 1;
      var x := es[n].illness;
      var ds, dl := Diagnose(es[..n], small, provable), Diagnose(es[..n], large, provable);
      Monotone(es[..n], small, large, provable);
      SubsequenceExtend(ds, dl, x);
      if Reported(es[n], small, provable) {
        assert Reported(es[n], large, provable);
        assert Diagnose(es, small, provable) == ds + [x];
        assert Diagnose(es, large, provable) == dl + [x];
      } else if Reported(es[n], large, provable) {
        assert Diagnose(es, small, provable) == ds;
        assert Diagnose(es, large, provable) == dl + [x];
      } else {
        assert Diagnose(es, small, provable) == ds;
        assert Diagnose(es, large, provable) == dl;
      }
    }
    SubsequenceMembers(Diagnose(es, small, provable), Diagnose(es, large, provable));
  }

  /** An empty selection reports nothing, because no catalog list is empty. */
  lemma {:induction false} EmptySelection(es: seq<Entry>, provable: string -> bool)
    requires WellFormed(es)
    ensures Diagnose(es, [], provable) == []
  {
    if es != [] {
      var n := |es| - 1;
      assert WellFormed(es[..n]);
      EmptySelection(es[..n], provable);
      assert es[n].required[0] in es[n].required;
    }
  }

  /** For the real catalog the two readings of the chainer's answer give
      the same report. */
  lemma ShowIllnessReadingsAgree(selected: seq<string>)
    ensures var kb := KbClauses(Illnesses, Rules);
      Diagnose(Illnesses, selected, n => FactLevelProvable(kb, n)) == Diagnose(Illnesses, selected, n => GeneratorTruthy(kb, n))
  {
    IllnessesWellFormed();
    ReadingsAgree(Illnesses, Rules, selected);
  }

  /** For the real catalog and a chainer that answers every catalog
      illness, the report obeys the exact-match law. Instantiated with the
      knowledge base of `setup_kb` and the ticked labels, its conclusion is
      about the report `ShowIllness` returns. */
  lemma CatalogExactReport(kb: seq<Clause>, ask: (seq<Clause>, string) -> bool, selected: seq<string>)
    requires forall i :: 0 <= i < |Illnesses| ==> ask(kb, Illnesses[i].illness)
    ensures ExactReport(Illnesses, selected, Diagnose(Illnesses, selected, n => ask(kb, n)))
  {
    IllnessKeysUnique();
    ExactReportFrom(Illnesses, selected, n => ask(kb, n));
  }

  /** The exact-match law for a whole report. */
  lemma ExactReportFrom(es: seq<Entry>, selected: seq<string>, provable: string -> bool)
    requires UniqueKeys(es) && Answered(es, provable)
    ensures ExactReport(es, selected, Diagnose(es, selected, provable))
  {
    forall name {
      ExactMatch(es, selected, provable, name);
    }
  }

  /** For the real catalog, the window reports an illness exactly when it is
      in the catalog and all of its listed symptoms are ticked. */
  lemma ShowIllnessExactMatch(kb: seq<Clause>, selected: seq<string>, name: string)
    ensures name in Diagnose(Illnesses, selected, n => GeneratorTruthy(kb, n)) <==>
      Lookup(Illnesses, name).Some? && forall s :: s in Lookup(Illnesses, name).value ==> s in selected
  {
    IllnessKeysUnique();
    ExactMatch(Illnesses, selected, n => GeneratorTruthy(kb, n), name);
  }
}
