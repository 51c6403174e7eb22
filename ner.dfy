/**
 * The entity bucketing of src/ner.py. The two spaCy documents are given as the
 * sequences of `(label, text)` pairs of their entities; `extract_entities` routes
 * them into four category lists without repeating a string, and `get_keywords`
 * takes the union of those lists.
 */
module Ner {

  /** One entity of a spaCy document: its `label_` (here `kind`, as `label` is a Dafny keyword) and its `text`. */
  datatype Entity = Entity(kind: string, text: string)

  const Diseases: string := "Diseases"
  const Chemicals: string := "Chemicals"
  const PhysiologicalProcesses: string := "Physiological_Processes"
  const BodyParts: string := "Body_Parts"

  /** The keys of the dictionary `extract_entities` returns, in insertion order. */
  const Categories: seq<string> := [Diseases, Chemicals, PhysiologicalProcesses, BodyParts]

  /** The second model's labels kept as body parts. */
  const RelevantLabels: seq<string> := ["ORGAN", "TISSUE", "SYSTEM_ORGAN_PART"]

  predicate NoDuplicates(xs: seq<string>) {
    forall i, j :: 0 <= i < j < |xs| ==> xs[i] != xs[j]
  }

  // ---------------------------------------------------------------------------
  // Specification of the category lists

  /** The texts of the entities whose label is one of `labels`, in document order. */
  function Texts(ents: seq<Entity>, labels: seq<string>): seq<string> {
    if ents == [] then []
    else
      var last := ents[|ents| - 1];
      Texts(ents[..|ents| - 1], labels) + (if last.kind in labels then [last.text] else [])
  }

  /** The guarded append of the two loops: `x` joins the end of `list` unless `list` holds it. */
  function AddNew(list: seq<string>, x: string): seq<string> {
    if x in list then list else list + [x]
  }

  /** The list that guarded appends build from `xs`, one element after the other. */
  function Distinct(xs: seq<string>): seq<string> {
    if xs == [] then [] else AddNew(Distinct(xs[..|xs| - 1]), xs[|xs| - 1])
  }

  /** The dictionary of the four categories, with nothing ever filed under the physiological processes. */
  function Buckets(diseases: seq<string>, chemicals: seq<string>, bodyParts: seq<string>): map<string, seq<string>> {
    map[Diseases := diseases, Chemicals := chemicals, PhysiologicalProcesses := [], BodyParts := bodyParts]
  }

  /** What `extract_entities` returns for the two entity streams. */
  function EntitiesOf(bc5cdr: seq<Entity>, bionlp: seq<Entity>): map<string, seq<string>> {
    Buckets(Distinct(Texts(bc5cdr, ["DISEASE"])),
            Distinct(Texts(bc5cdr, ["CHEMICAL"])),
            Distinct(Texts(bionlp, RelevantLabels)))
  }

  /** The index of the first occurrence of `x` in `xs`. */
  function FirstIndex(xs: seq<string>, x: string): (r: nat)
    requires x in xs
    ensures r < |xs| && xs[r] == x && x !in xs[..r]
  {
    if xs[0] == x then 0
    else
      var r := 1 + FirstIndex(xs[1..], x);
      assert xs[..r] == [xs[0]] + xs[1..][..r - 1];
      r
  }

  // ---------------------------------------------------------------------------
  // extract_entities

  method ExtractEntities(bc5cdr: seq<Entity>, bionlp: seq<Entity>)
    returns (entities: map<string, seq<string>>)
    ensures entities == EntitiesOf(bc5cdr, bionlp)
    ensures entities.Keys == {Diseases, Chemicals, PhysiologicalProcesses, BodyParts}
    ensures entities[Diseases] == Distinct(Texts(bc5cdr, ["DISEASE"]))
    ensures entities[Chemicals] == Distinct(Texts(bc5cdr, ["CHEMICAL"]))
    ensures entities[PhysiologicalProcesses] == []
    ensures entities[BodyParts] == Distinct(Texts(bionlp, RelevantLabels))
    ensures forall c :: c in entities ==> NoDuplicates(entities[c])
  {
    entities := map[Diseases := [], Chemicals := [], PhysiologicalProcesses := [], BodyParts := []];
    assert bc5cdr[..0] == [] && bionlp[..0] == [];
    for i := 0 to |bc5cdr|
      invariant entities == EntitiesOf(bc5cdr[..i], [])
    {
      var ent := bc5cdr[i];
      FirstModelStep(bc5cdr, i);
      BucketsShape(Distinct(Texts(bc5cdr[..i], ["DISEASE"])), Distinct(Texts(bc5cdr[..i], ["CHEMICAL"])), []);
      if ent.kind == "DISEASE" {
        if ent.text !in entities[Diseases] {
          entities := entities[Diseases := entities[Diseases] + [ent.text]];
        } else {
          FiledAgain(entities, Diseases, ent.text);
        }
      } else if ent.kind == "CHEMICAL" {
        if ent.text !in entities[Chemicals] {
          entities := entities[Chemicals := entities[Chemicals] + [ent.text]];
        } else {
          FiledAgain(entities, Chemicals, ent.text);
        }
      }
    }
    assert bc5cdr[..|bc5cdr|] == bc5cdr;
    for i := 0 to |bionlp|
      invariant entities == EntitiesOf(bc5cdr, bionlp[..i])
    {
      var ent := bionlp[i];
      SecondModelStep(bc5cdr, bionlp, i);
      BucketsShape(Distinct(Texts(bc5cdr, ["DISEASE"])), Distinct(Texts(bc5cdr, ["CHEMICAL"])),
                   Distinct(Texts(bionlp[..i], RelevantLabels)));
      if ent.kind in RelevantLabels {
        if ent.text !in entities[BodyParts] {
          entities := entities[BodyParts := entities[BodyParts] + [ent.text]];
        } else {
          FiledAgain(entities, BodyParts, ent.text);
        }
      }
    }
    assert bionlp[..|bionlp|] == bionlp;
    EntitiesShape(bc5cdr, bionlp);
  }

  /** Filing a string already present changes nothing. */
  lemma FiledAgain(entities: map<string, seq<string>>, category: string, text: string)
    requires category in entities && text in entities[category]
    ensures Filed(entities, category, text) == entities
  {
  }

  lemma BucketsShape(diseases: seq<string>, chemicals: seq<string>, bodyParts: seq<string>)
    ensures var b := Buckets(diseases, chemicals, bodyParts);
      && b.Keys == {Diseases, Chemicals, PhysiologicalProcesses, BodyParts}
      && b[Diseases] == diseases && b[Chemicals] == chemicals
      && b[PhysiologicalProcesses] == [] && b[BodyParts] == bodyParts
  {
  }

  /**
   * The dictionary has exactly the four categories; Physiological_Processes stays empty,
   * and no category holds a string twice.
   */
  lemma EntitiesShape(bc5cdr: seq<Entity>, bionlp: seq<Entity>)
    ensures var e := EntitiesOf(bc5cdr, bionlp);
      && e.Keys == {Diseases, Chemicals, PhysiologicalProcesses, BodyParts}
      && e[Diseases] == Distinct(Texts(bc5cdr, ["DISEASE"]))
      && e[Chemicals] == Distinct(Texts(bc5cdr, ["CHEMICAL"]))
      && e[PhysiologicalProcesses] == []
      && e[BodyParts] == Distinct(Texts(bionlp, RelevantLabels))
      && forall c :: c in e ==> NoDuplicates(e[c])
  {
    var diseases := Distinct(Texts(bc5cdr, ["DISEASE"]));
    var chemicals := Distinct(Texts(bc5cdr, ["CHEMICAL"]));
    var bodyParts := Distinct(Texts(bionlp, RelevantLabels));
    BucketsShape(diseases, chemicals, bodyParts);
    DistinctNoDuplicates(Texts(bc5cdr, ["DISEASE"]));
    DistinctNoDuplicates(Texts(bc5cdr, ["CHEMICAL"]));
    DistinctNoDuplicates(Texts(bionlp, RelevantLabels));
  }

  /** `entities[category]`, after appending `text` to it unless it is there already. */
  function Filed(entities: map<string, seq<string>>, category: string, text: string): map<string, seq<string>>
    requires category in entities
  {
    entities[category := AddNew(entities[category], text)]
  }

  /** One pass of the first loop of `extract_entities`. */
  lemma FirstModelStep(bc5cdr: seq<Entity>, i: nat)
    requires i < |bc5cdr|
    ensures var before, ent := EntitiesOf(bc5cdr[..i], []), bc5cdr[i];
      EntitiesOf(bc5cdr[..i + 1], [])
        == if ent.kind == "DISEASE" then Filed(before, Diseases, ent.text)
           else if ent.kind == "CHEMICAL" then Filed(before, Chemicals, ent.text)
           else before
  {
    var diseases := Distinct(Texts(bc5cdr[..i], ["DISEASE"]));
    var chemicals := Distinct(Texts(bc5cdr[..i], ["CHEMICAL"]));
    var none := Distinct(Texts([], RelevantLabels));
    DistinctStep(bc5cdr, i, ["DISEASE"]);
    DistinctStep(bc5cdr, i, ["CHEMICAL"]);
    FiledInBuckets(diseases, chemicals, none, bc5cdr[i].text);
  }

  /** The list for `labels` after one more entity. */
  lemma DistinctStep(ents: seq<Entity>, i: nat, labels: seq<string>)
    requires i < |ents|
    ensures Distinct(Texts(ents[..i + 1], labels))
         == if ents[i].kind in labels then AddNew(Distinct(Texts(ents[..i], labels)), ents[i].text)
            else Distinct(Texts(ents[..i], labels))
  {
    var before := Texts(ents[..i], labels);
    TextsStep(ents, i, labels);
    if ents[i].kind in labels {
      DistinctSnoc(before, ents[i].text);
    } else {
      assert Texts(ents[..i + 1], labels) == before;
    }
  }

  /** One pass of the second loop of `extract_entities`. */
  lemma SecondModelStep(bc5cdr: seq<Entity>, bionlp: seq<Entity>, i: nat)
    requires i < |bionlp|
    ensures var before, ent := EntitiesOf(bc5cdr, bionlp[..i]), bionlp[i];
      EntitiesOf(bc5cdr, bionlp[..i + 1])
        == if ent.kind in RelevantLabels then Filed(before, BodyParts, ent.text) else before
  {
    var diseases := Distinct(Texts(bc5cdr, ["DISEASE"]));
    var chemicals := Distinct(Texts(bc5cdr, ["CHEMICAL"]));
    DistinctStep(bionlp, i, RelevantLabels);
    FiledInBuckets(diseases, chemicals, Distinct(Texts(bionlp[..i], RelevantLabels)), bionlp[i].text);
  }

  lemma FiledInBuckets(diseases: seq<string>, chemicals: seq<string>, bodyParts: seq<string>, text: string)
    ensures Filed(Buckets(diseases, chemicals, bodyParts), Diseases, text)
         == Buckets(AddNew(diseases, text), chemicals, bodyParts)
    ensures Filed(Buckets(diseases, chemicals, bodyParts), Chemicals, text)
         == Buckets(diseases, AddNew(chemicals, text), bodyParts)
    ensures Filed(Buckets(diseases, chemicals, bodyParts), BodyParts, text)
         == Buckets(diseases, chemicals, AddNew(bodyParts, text))
  {
  }

  lemma TextsStep(ents: seq<Entity>, i: nat, labels: seq<string>)
    requires i < |ents|
    ensures Texts(ents[..i + 1], labels)
         == Texts(ents[..i], labels) + (if ents[i].kind in labels then [ents[i].text] else [])
  {
    assert ents[..i + 1][..i] == ents[..i];
  }

  lemma DistinctSnoc(xs: seq<string>, x: string)
    ensures Distinct(xs + [x]) == AddNew(Distinct(xs), x)
  {
    assert (xs + [x])[..|xs|] == xs;
  }

  // ---------------------------------------------------------------------------
  // What the category lists hold

  /** A category list never holds the same string twice. */
  lemma {:induction false} DistinctNoDuplicates(xs: seq<string>)
    ensures NoDuplicates(Distinct(xs))
    decreases |xs|
  {
    if xs != [] {
      DistinctNoDuplicates(xs[..|xs| - 1]);
    }
  }

  /** A category list holds exactly the strings of the texts it was built from. */
  lemma {:induction false} DistinctMembers(xs: seq<string>)
    ensures forall x :: x in Distinct(xs) <==> x in xs
    decreases |xs|
  {
    if xs != [] {
      var init := xs[..|xs| - 1];
      DistinctMembers(init);
      assert xs == init + [xs[|xs| - 1]];
    }
  }

  /** `FirstIndex` is the one index holding `x` with no `x` before it. */
  lemma FirstIndexUnique(xs: seq<string>, x: string, r: nat)
    requires r < |xs| && xs[r] == x && x !in xs[..r]
    ensures FirstIndex(xs, x) == r
  {
  }

  lemma FirstIndexSnoc(xs: seq<string>, y: string, x: string)
    requires x in xs
    ensures FirstIndex(xs + [y], x) == FirstIndex(xs, x)
  {
    var f := FirstIndex(xs, x);
    assert (xs + [y])[..f] == xs[..f];
    FirstIndexUnique(xs + [y], x, f);
  }

  /**
   * A category list keeps the order of first occurrence: of two strings in it, the one
   * seen first in the texts comes first.
   */
  lemma DistinctFirstOccurrenceOrder(xs: seq<string>)
    ensures forall i, j :: 0 <= i < j < |Distinct(xs)| ==> SeenBefore(xs, Distinct(xs)[i], Distinct(xs)[j])
  {
    forall i, j | 0 <= i < j < |Distinct(xs)|
      ensures SeenBefore(xs, Distinct(xs)[i], Distinct(xs)[j])
    {
      DistinctOrderAt(xs, i, j);
    }
  }

  /** `a` occurs in `xs` before `b` first does. */
  predicate SeenBefore(xs: seq<string>, a: string, b: string) {
    a in xs && b in xs && FirstIndex(xs, a) < FirstIndex(xs, b)
  }

  lemma {:induction false} DistinctOrderAt(xs: seq<string>, i: nat, j: nat)
    requires i < j < |Distinct(xs)|
    ensures SeenBefore(xs, Distinct(xs)[i], Distinct(xs)[j])
    decreases |xs|
  {
    var init, x := xs[..|xs| - 1], xs[|xs| - 1];
    assert xs == init + [x];
    var d := Distinct(init);
    DistinctMembers(init);
    assert Distinct(xs) == AddNew(d, x);
    assert Distinct(xs)[i] == d[i] && d[i] in init;
    FirstIndexSnoc(init, x, d[i]);
    if j < |d| {
      assert Distinct(xs)[j] == d[j] && d[j] in init;
      DistinctOrderAt(init, i, j);
      FirstIndexSnoc(init, x, d[j]);
    } else {
      assert x !in init && Distinct(xs)[j] == x;
      FirstIndexUnique(xs, x, |init|);
    }
  }

  /** The texts kept for `labels` are exactly those of the entities carrying one of them. */
  lemma {:induction false} TextsMembers(ents: seq<Entity>, labels: seq<string>, x: string)
    ensures x in Texts(ents, labels) <==>
      exists i :: 0 <= i < |ents| && ents[i].kind in labels && ents[i].text == x
    decreases |ents|
  {
    if ents != [] {
      var init, last := ents[..|ents| - 1], ents[|ents| - 1];
      TextsMembers(init, labels, x);
      if x in Texts(ents, labels) {
        if x in Texts(init, labels) {
          var i :| 0 <= i < |init| && init[i].kind in labels && init[i].text == x;
          assert ents[i] == init[i];
        } else {
          assert last.kind in labels && last.text == x;
        }
      } else {
        forall i | 0 <= i < |ents|
          ensures !(ents[i].kind in labels && ents[i].text == x)
        {
          if i < |init| {
            assert ents[i] == init[i];
          }
        }
      }
    }
  }

  // ---------------------------------------------------------------------------
  // get_keywords

  /** The strings of a list, as a set. */
  function Elements(xs: seq<string>): (s: set<string>)
    ensures forall x :: x in s <==> x in xs
  {
    set x | x in xs
  }

  /** The union of the lists filed under `cats`. */
  function UnionOver(entities: map<string, seq<string>>, cats: seq<string>): set<string>
    requires forall c :: c in cats ==> c in entities
  {
    if cats == [] then {}
    else UnionOver(entities, cats[..|cats| - 1]) + Elements(entities[cats[|cats| - 1]])
  }

  method GetKeywords(bc5cdr: seq<Entity>, bionlp: seq<Entity>) returns (keywords: seq<string>)
    ensures NoDuplicates(keywords)
    ensures forall w :: w in keywords <==>
      exists c :: c in Categories && w in EntitiesOf(bc5cdr, bionlp)[c]
  {
    var res := ExtractEntities(bc5cdr, bionlp);
    var found: set<string> := {};
    for j := 0 to |Categories|
      invariant found == UnionOver(res, Categories[..j])
    {
      assert Categories[..j + 1][..j] == Categories[..j];
      found := found + Elements(res[Categories[j]]);
    }
    assert Categories[..|Categories|] == Categories;
    UnionOverMembers(res, Categories);
    keywords := ListOf(found);
  }

  lemma {:induction false} UnionOverMembers(entities: map<string, seq<string>>, cats: seq<string>)
    requires forall c :: c in cats ==> c in entities
    ensures forall w :: w in UnionOver(entities, cats) <==> exists c :: c in cats && w in entities[c]
    decreases |cats|
  {
    if cats != [] {
      var init := cats[..|cats| - 1];
      UnionOverMembers(entities, init);
      assert cats == init + [cats[|cats| - 1]];
    }
  }

  /** `list(keywords)`: the members of a set, each once, in an order the set decides. */
  method ListOf(s: set<string>) returns (xs: seq<string>)
    ensures NoDuplicates(xs)
    ensures forall x :: x in xs <==> x in s
  {
    xs := [];
    var rest := s;
    while rest != {}
      invariant rest <= s
      invariant NoDuplicates(xs)
      invariant forall x :: x in xs <==> x in s && x !in rest
      decreases |rest|
    {
      var x :| x in rest;
      xs := xs + [x];
      rest := rest - {x};
    }
  }

  /**
   * A keyword is exactly the text of a first-model DISEASE or CHEMICAL entity or of a
   * second-model body-part entity.
   */
  lemma KeywordsAreEntityTexts(bc5cdr: seq<Entity>, bionlp: seq<Entity>, w: string)
    ensures (exists c :: c in Categories && w in EntitiesOf(bc5cdr, bionlp)[c]) <==>
      (exists i :: 0 <= i < |bc5cdr| && bc5cdr[i].kind in ["DISEASE", "CHEMICAL"] && bc5cdr[i].text == w) ||
      (exists i :: 0 <= i < |bionlp| && bionlp[i].kind in RelevantLabels && bionlp[i].text == w)
  {
    KeywordCategories(bc5cdr, bionlp, w);
    FirstModelKeyword(bc5cdr, w);
    TextsMembers(bionlp, RelevantLabels, w);
  }

  lemma KeywordCategories(bc5cdr: seq<Entity>, bionlp: seq<Entity>, w: string)
    ensures (exists c :: c in Categories && w in EntitiesOf(bc5cdr, bionlp)[c]) <==>
      w in Texts(bc5cdr, ["DISEASE"]) || w in Texts(bc5cdr, ["CHEMICAL"]) || w in Texts(bionlp, RelevantLabels)
  {
    var e := EntitiesOf(bc5cdr, bionlp);
    EntitiesShape(bc5cdr, bionlp);
    DistinctMembers(Texts(bc5cdr, ["DISEASE"]));
    DistinctMembers(Texts(bc5cdr, ["CHEMICAL"]));
    DistinctMembers(Texts(bionlp, RelevantLabels));
    if exists c :: c in Categories && w in e[c] {
      var c :| c in Categories && w in e[c];
      assert c == Diseases || c == Chemicals || c == PhysiologicalProcesses || c == BodyParts;
    }
    if w in e[Diseases] {
      assert Diseases in Categories;
    } else if w in e[Chemicals] {
      assert Chemicals in Categories;
    } else if w in e[BodyParts] {
      assert BodyParts in Categories;
    }
  }

  lemma FirstModelKeyword(bc5cdr: seq<Entity>, w: string)
    ensures w in Texts(bc5cdr, ["DISEASE"]) || w in Texts(bc5cdr, ["CHEMICAL"]) <==>
      exists i :: 0 <= i < |bc5cdr| && bc5cdr[i].kind in ["DISEASE", "CHEMICAL"] && bc5cdr[i].text == w
  {
    TextsMembers(bc5cdr, ["DISEASE"], w);
    TextsMembers(bc5cdr, ["CHEMICAL"], w);
    if exists i :: 0 <= i < |bc5cdr| && bc5cdr[i].kind in ["DISEASE", "CHEMICAL"] && bc5cdr[i].text == w {
      var i :| 0 <= i < |bc5cdr| && bc5cdr[i].kind in ["DISEASE", "CHEMICAL"] && bc5cdr[i].text == w;
      if bc5cdr[i].kind == "DISEASE" {
        assert bc5cdr[i].kind in ["DISEASE"];
      } else {
        assert bc5cdr[i].kind in ["CHEMICAL"];
      }
    }
  }
}
