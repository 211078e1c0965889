/** Construction of the knowledge base: one fact per (illness, symptom) pair
    of the catalog, in catalog order, then every rule string in list order.
    The logic library's own clause representation is not modelled: a fact is
    kept as its predicate and its quoted argument, a rule as its text. */
module Kb {
  import opened Catalog

  /** A told clause: the fact `Illness('Symptom')`, or a rule string. */
  datatype Clause = Fact(name: string, argument: string) | Rule(text: string)

  /** The facts told for one illness, in the order of its list. */
  function EntryFacts(illness: string, symptoms: seq<string>): (cs: seq<Clause>)
  {
    if symptoms == [] then [] else [Fact(illness, symptoms[0])] + EntryFacts(illness, symptoms[1..])
  }

  /** The facts told for a whole catalog: its entries' facts, concatenated. */
  function CatalogFacts(es: seq<Entry>): (cs: seq<Clause>)
  {
    if es == [] then [] else EntryFacts(es[0].illness, es[0].required) + CatalogFacts(es[1..])
  }

  /** The rule strings as told clauses, in list order. */
  function RuleClauses(rs: seq<string>): (cs: seq<Clause>)
  {
    if rs == [] then [] else [Rule(rs[0])] + RuleClauses(rs[1..])
  }

  /** The whole knowledge base built from a catalog and a rule list. */
  function KbClauses(es: seq<Entry>, rs: seq<string>): seq<Clause>
  {
    CatalogFacts(es) + RuleClauses(rs)
  }

  /** The total number of (illness, symptom) pairs of a catalog. */
  function PairCount(es: seq<Entry>): nat
  {
    if es == [] then 0 else |es[0].required| + PairCount(es[1..])
  }

  /** Where the facts of entry `i` start among the catalog facts. */
  function Offset(es: seq<Entry>, i: nat): nat
    requires i <= |es|
  {
    PairCount(es[..i])
  }

  /** The facts of one illness: exactly one per list element, at its position,
      duplicates included. */
  lemma {:induction false} EntryFactsAt(illness: string, symptoms: seq<string>)
    ensures |EntryFacts(illness, symptoms)| == |symptoms|
    ensures forall j :: 0 <= j < |symptoms| ==> EntryFacts(illness, symptoms)[j] == Fact(illness, symptoms[j])
  {
    if symptoms != [] {
      EntryFactsAt(illness, symptoms[1..]);
    }
  }

  /** The rules as clauses: one per rule string, in list order. */
  lemma {:induction false} RuleClausesAt(rs: seq<string>)
    ensures |RuleClauses(rs)| == |rs|
    ensures forall k :: 0 <= k < |rs| ==> RuleClauses(rs)[k] == Rule(rs[k])
  {
    if rs != [] {
      RuleClausesAt(rs[1..]);
    }
  }

  /** The number of catalog facts is the number of (illness, symptom) pairs. */
  lemma {:induction false} CatalogFactsLength(es: seq<Entry>)
    ensures |CatalogFacts(es)| == PairCount(es)
  {
    if es != [] {
      CatalogFactsLength(es[1..]);
      EntryFactsAt(es[0].illness, es[0].required);
    }
  }

  /** Every (illness, symptom) pair of the catalog is told as a fact, at the
      position given by catalog order: entry `i`, symptom `j` sits at
      `Offset(es, i) + j`. */
  lemma {:induction false} CatalogFactAt(es: seq<Entry>, i: nat, j: nat)
    requires i < |es| && j < |es[i].required|
    ensures Offset(es, i) + j < |CatalogFacts(es)|
    ensures CatalogFacts(es)[Offset(es, i) + j] == Fact(es[i].illness, es[i].required[j])
  {
    EntryFactsAt(es[0].illness, es[0].required);
    CatalogFactsLength(es[1..]);
    if i == 0 {
      assert es[..i] == [];
    } else {
      assert es[..i][1..] == es[1..][..i - 1];
      CatalogFactAt(es[1..], i - 1, j);
    }
  }

  /** Every catalog fact comes from some (illness, symptom) pair: nothing is
      told that is not in the catalog. */
  lemma {:induction false} CatalogFactFrom(es: seq<Entry>, k: nat)
    requires k < |CatalogFacts(es)|
    ensures exists i, j :: (0 <= i < |es| && 0 <= j < |es[i].required| &&
      CatalogFacts(es)[k] == Fact(es[i].illness, es[i].required[j]))
  {
    EntryFactsAt(es[0].illness, es[0].required);
    var m := |es[0].required|;
    if k < m {
      assert CatalogFacts(es)[k] == Fact(es[0].illness, es[0].required[k]);
    } else {
      CatalogFactFrom(es[1..], k - m);
      var i, j :| 0 <= i < |es[1..]| && 0 <= j < |es[1..][i].required| &&
        CatalogFacts(es[1..])[k - m] == Fact(es[1..][i].illness, es[1..][i].required[j]);
      assert CatalogFacts(es)[k] == Fact(es[i + 1].illness, es[i + 1].required[j]);
    }
  }

  lemma {:induction false} EntryFactsAppend(illness: string, a: seq<string>, b: seq<string>)
    ensures EntryFacts(illness, a + b) == EntryFacts(illness, a) + EntryFacts(illness, b)
  {
    if a != [] {
      assert (a + b)[0] == a[0] && (a + b)[1..] == a[1..] + b;
      EntryFactsAppend(illness, a[1..], b);
    } else {
      assert a + b == b;
    }
  }

  lemma {:induction false} CatalogFactsAppend(a: seq<Entry>, b: seq<Entry>)
    ensures CatalogFacts(a + b) == CatalogFacts(a) + CatalogFacts(b)
  {
    if a != [] {
      assert (a + b)[0] == a[0] && (a + b)[1..] == a[1..] + b;
      CatalogFactsAppend(a[1..], b);
    } else {
      assert a + b == b;
    }
  }

  lemma {:induction false} RuleClausesAppend(a: seq<string>, b: seq<string>)
    ensures RuleClauses(a + b) == RuleClauses(a) + RuleClauses(b)
  {
    if a != [] {
      assert (a + b)[0] == a[0] && (a + b)[1..] == a[1..] + b;
      RuleClausesAppend(a[1..], b);
    } else {
      assert a + b == b;
    }
  }

  /** The knowledge base holds the catalog facts first, then exactly the
      rules in list order, and nothing else. */
  lemma KbLayout(es: seq<Entry>, rs: seq<string>)
    ensures |KbClauses(es, rs)| == PairCount(es) + |rs|
    ensures forall k :: 0 <= k < PairCount(es) ==> KbClauses(es, rs)[k].Fact?
    ensures forall k :: 0 <= k < |rs| ==> KbClauses(es, rs)[PairCount(es) + k] == Rule(rs[k])
  {
    CatalogFactsLength(es);
    RuleClausesAt(rs);
    CatalogFactsAreFacts(es);
  }

  lemma {:induction false} CatalogFactsAreFacts(es: seq<Entry>)
    ensures forall k :: 0 <= k < |CatalogFacts(es)| ==> CatalogFacts(es)[k].Fact?
  {
    if es != [] {
      EntryFactsAt(es[0].illness, es[0].required);
      CatalogFactsAreFacts(es[1..]);
    }
  }

  /** The reading of provability that looks only at the told facts: some
      fact of the knowledge base has the illness as its predicate. */
  predicate FactLevelProvable(kb: seq<Clause>, illness: string) {
    exists k :: 0 <= k < |kb| && kb[k].Fact? && kb[k].name == illness
  }

  /** Every illness of a well-formed catalog has a fact-level proof, since
      its symptom list is non-empty and each entry is told as a fact. */
  lemma CatalogIllnessProvable(es: seq<Entry>, rs: seq<string>, i: nat)
    requires WellFormed(es) && i < |es|
    ensures FactLevelProvable(KbClauses(es, rs), es[i].illness)
  {
    CatalogFactAt(es, i, 0);
    var k := Offset(es, i);
    assert KbClauses(es, rs)[k] == CatalogFacts(es)[k];
  }

  /** Fact-level provability ignores the rules: exactly the catalog keys are
      provable. */
  lemma FactLevelProvableIffKey(es: seq<Entry>, rs: seq<string>, illness: string)
    requires WellFormed(es)
    ensures FactLevelProvable(KbClauses(es, rs), illness) <==> illness in Keys(es)
  {
    var kb := KbClauses(es, rs);
    CatalogFactsLength(es);
    RuleClausesAt(rs);
    if FactLevelProvable(kb, illness) {
      var k :| 0 <= k < |kb| && kb[k].Fact? && kb[k].name == illness;
      assert k < |CatalogFacts(es)|;
      CatalogFactFrom(es, k);
      var i, j :| 0 <= i < |es| && 0 <= j < |es[i].required| &&
        CatalogFacts(es)[k] == Fact(es[i].illness, es[i].required[j]);
      assert Keys(es)[i] == illness;
    }
    if illness in Keys(es) {
      var i :| 0 <= i < |es| && Keys(es)[i] == illness;
      CatalogIllnessProvable(es, rs, i);
    }
  }

  /** The knowledge base object: clauses are only ever appended. */
  class KnowledgeBase {
    var clauses: seq<Clause>

    constructor ()
      ensures clauses == []
    {
      clauses := [];
    }

    /** `kb.tell(clause)`: append, with no deduplication. */
    method Tell(c: Clause)
      modifies this
      ensures clauses == old(clauses) + [c]
    {
      clauses := clauses + [c];
    }
  }

  /** The nested loop of `setup_kb`: for each illness in order, tell one fact
      per symptom of its list. */
  method TellCatalogFacts(kb: KnowledgeBase, es: seq<Entry>)
    modifies kb
    ensures kb.clauses == old(kb.clauses) + CatalogFacts(es)
  {
    var i := 0;
    while i < |es|
      invariant 0 <= i <= |es|
      invariant kb.clauses == old(kb.clauses) + CatalogFacts(es[..i])
    {
      var illness := es[i].illness;
      var symptoms := es[i].required;
      ghost var before := kb.clauses;
      var j := 0;
      while j < |symptoms|
        invariant 0 <= j <= |symptoms|
        invariant kb.clauses == before + EntryFacts(illness, symptoms[..j])
      {
        EntryFactsAppend(illness, symptoms[..j], [symptoms[j]]);
        assert symptoms[..j] + [symptoms[j]] == symptoms[..j + 1];
        kb.Tell(Fact(illness, symptoms[j]));
        j := j + 1;
      }
      assert symptoms[..j] == symptoms;
      CatalogFactsAppend(es[..i], [es[i]]);
      assert es[..i] + [es[i]] == es[..i + 1];
      i := i + 1;
    }
    assert es[..i] == es;
  }

  /** The rule loop of `setup_kb`: tell every rule string in list order. */
  method TellRules(kb: KnowledgeBase, rs: seq<string>)
    modifies kb
    ensures kb.clauses == old(kb.clauses) + RuleClauses(rs)
  {
    var k := 0;
    while k < |rs|
      invariant 0 <= k <= |rs|
      invariant kb.clauses == old(kb.clauses) + RuleClauses(rs[..k])
    {
      RuleClausesAppend(rs[..k], [rs[k]]);
      assert rs[..k] + [rs[k]] == rs[..k + 1];
      kb.Tell(Rule(rs[k]));
      k := k + 1;
    }
    assert rs[..k] == rs;
  }

  /** The body of `setup_kb` for a given catalog and rule list. */
  method BuildKb(es: seq<Entry>, rs: seq<string>) returns (kb: KnowledgeBase)
    ensures fresh(kb)
    ensures kb.clauses == KbClauses(es, rs)
  {
    kb := new KnowledgeBase();
    TellCatalogFacts(kb, es);
    TellRules(kb, rs);
  }

  /** `setup_kb`: a fresh knowledge base told every catalog fact, then every
      rule. */
  method SetupKb() returns (kb: KnowledgeBase)
    ensures fresh(kb)
    ensures kb.clauses == KbClauses(Illnesses, Rules)
  {
    kb := BuildKb(Illnesses, Rules);
  }
}
