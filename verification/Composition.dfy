/**
 The composition manifest of a specification and its validation. Sections name their parents, and a check
 that follows the chain of parents from each section makes sure that the sections form a forest.
 */
module Composition {
  import opened Wrappers
  import opened Canonical

  datatype Section = Section(id: string, parent: Option<string>, title: string, order: int)

  /** Ids are None when they are the nil UUID; a target is given by its printed ids and hash. */
  datatype Occurrence = Occurrence(id: Option<string>, section: string, product: Option<string>, revision: Option<string>, hash: string, order: int)

  /** The bytes an author states as the elements hash: the hash of some text, or bytes that are the hash of none. */
  datatype Stated = HashOf(preimage: string) | OtherBytes(length: nat)

  const HashSize: nat := 32

  function Size(h: Stated): nat {
    if h.HashOf? then HashSize else h.length
  }

  datatype Manifest = Manifest(version: string, sections: seq<Section>, occurrences: seq<Occurrence>, elements: Stated)

  datatype Fault = InvalidManifest | CompositionCycle

  type Sections = map<string, Section>

  // ---------------------------------------------------------------- chains of parents

  /** The parent of a section; none for a section that is unknown, or whose parent has an empty id. */
  function ParentOf(sections: Sections, id: string): Option<string> {
    if id in sections && sections[id].parent != Some("") then sections[id].parent else None
  }

  /** The n-th ancestor of a section, counted from the section itself; an empty id names none. */
  function Ancestor(sections: Sections, id: string, n: nat): Option<string> {
    if n == 0 then (if id == "" then None else Some(id))
    else
      var before := Ancestor(sections, id, n - 1);
      if before.None? then None else ParentOf(sections, before.value)
  }

  /** The chain of parents never ends. */
  ghost predicate Endless(sections: Sections, id: string) {
    forall n: nat :: Ancestor(sections, id, n).Some?
  }

  /** The chain of parents ends at a section without one, through sections that all exist. */
  ghost predicate Rooted(sections: Sections, id: string) {
    exists n: nat :: EndsAt(sections, id, n)
  }

  ghost predicate EndsAt(sections: Sections, id: string, n: nat) {
    && (forall i | 0 <= i <= n :: Ancestor(sections, id, i).Some? && Ancestor(sections, id, i).value in sections)
    && sections[Ancestor(sections, id, n).value].parent.None?
  }

  lemma {:induction false} EarlierAncestors(sections: Sections, id: string, m: nat, n: nat)
    requires m <= n && Ancestor(sections, id, n).Some?
    ensures Ancestor(sections, id, m).Some?
    decreases n
  {
    if m < n { EarlierAncestors(sections, id, m, n - 1); }
  }

  /** From equal ancestors on, the chain goes the same way. */
  lemma {:induction false} SameOnwards(sections: Sections, id: string, i: nat, j: nat, k: nat)
    requires Ancestor(sections, id, i) == Ancestor(sections, id, j)
    ensures Ancestor(sections, id, i + k) == Ancestor(sections, id, j + k)
  {
    if k > 0 { SameOnwards(sections, id, i, j, k - 1); }
  }

  /** A chain that comes back to an ancestor never ends. */
  lemma {:induction false} RepeatIsEndless(sections: Sections, id: string, i: nat, j: nat, n: nat)
    requires i < j && Ancestor(sections, id, i) == Ancestor(sections, id, j) && Ancestor(sections, id, j).Some?
    ensures Ancestor(sections, id, n).Some?
    decreases n
  {
    if n <= j {
      EarlierAncestors(sections, id, n, j);
    } else {
      var back := n - (j - i);
      SameOnwards(sections, id, i, j, n - j);
      assert i + (n - j) == back && j + (n - j) == n;
      RepeatIsEndless(sections, id, i, j, back);
    }
  }

  /** Everything a chain from the section can meet. */
  function Reachable(sections: Sections, id: string): set<string> {
    {id} + sections.Keys + set k | k in sections && sections[k].parent.Some? :: sections[k].parent.value
  }

  lemma ReachableCloses(sections: Sections, id: string)
    ensures id in Reachable(sections, id)
    ensures forall k | k in sections && sections[k].parent.Some? :: sections[k].parent.value in Reachable(sections, id)
  {
  }

  /** The sections met so far, in order. */
  ghost predicate Trail(sections: Sections, id: string, trail: seq<string>) {
    forall i | 0 <= i < |trail| :: Ancestor(sections, id, i) == Some(trail[i])
  }

  lemma TrailExtends(sections: Sections, id: string, trail: seq<string>, current: string)
    requires Trail(sections, id, trail) && Ancestor(sections, id, |trail|) == Some(current)
    ensures Trail(sections, id, trail + [current]) && Ancestor(sections, id, |trail + [current]|) == ParentOf(sections, current)
  {
  }

  lemma BackOnTrail(sections: Sections, id: string, trail: seq<string>, current: string)
    requires Trail(sections, id, trail) && Ancestor(sections, id, |trail|) == Some(current) && current in trail
    ensures Endless(sections, id)
  {
    var i: nat :| 0 <= i < |trail| && trail[i] == current;
    forall m: nat ensures Ancestor(sections, id, m).Some? { RepeatIsEndless(sections, id, i, |trail|, m); }
  }

  /** Follows the parents from a section: true exactly when the chain never ends. */
  method HasSectionCycle(start: string, sections: Sections) returns (cyclic: bool)
    ensures cyclic <==> Endless(sections, start)
  {
    var visited: set<string> := {};
    var current := start;
    ghost var trail: seq<string> := [];
    ghost var all := Reachable(sections, start);
    ReachableCloses(sections, start);
    while current != ""
      invariant Trail(sections, start, trail) && visited == set x | x in trail
      invariant Ancestor(sections, start, |trail|) == if current == "" then None else Some(current)
      invariant current in all
      decreases |all - visited| + if current == "" then 0 else 1
    {
      if current in visited {
        BackOnTrail(sections, start, trail, current);
        return true;
      }
      FewerLeft(all, visited, current);
      TrailExtends(sections, start, trail, current);
      visited := visited + {current};
      trail := trail + [current];
      var parent := if current in sections then sections[current].parent else None;
      if parent.None? { return false; }
      current := parent.value;
    }
    return false;
  }

  // ---------------------------------------------------------------- validation

  predicate HexDigit(c: char) {
    '0' <= c <= '9' || 'a' <= c <= 'f' || 'A' <= c <= 'F'
  }

  predicate HashText(s: string) {
    |s| == 64 && forall i | 0 <= i < |s| :: HexDigit(s[i])
  }

  predicate SectionFits(sections: seq<Section>, i: nat)
    requires i < |sections|
  {
    sections[i].id != "" && sections[i].title != "" && sections[i].order >= 1 && forall j | 0 <= j < i :: sections[j].id != sections[i].id
  }

  predicate SectionsFit(sections: seq<Section>) {
    forall i | 0 <= i < |sections| :: SectionFits(sections, i)
  }

  function ById(sections: seq<Section>): Sections {
    if sections == [] then map[] else ById(sections[..|sections| - 1])[sections[|sections| - 1].id := sections[|sections| - 1]]
  }

  predicate OccurrenceFits(sections: Sections, os: seq<Occurrence>, i: nat)
    requires i < |os|
  {
    var o := os[i];
    && o.id.Some? && o.section != "" && o.order >= 1 && o.product.Some? && o.revision.Some? && HashText(o.hash)
    && o.section in sections
    && forall j | 0 <= j < i :: os[j].id != o.id
  }

  function ElementOf(o: Occurrence): Element {
    Element(if o.product.Some? then o.product.value else "", if o.revision.Some? then o.revision.value else "", o.hash)
  }

  function Elements(os: seq<Occurrence>): seq<Element> {
    if os == [] then [] else Elements(os[..|os| - 1]) + [ElementOf(os[|os| - 1])]
  }

  ghost predicate ValidManifest(m: Manifest) {
    var sections := ById(m.sections);
    && m.version == "1.0.0" && Size(m.elements) == HashSize
    && SectionsFit(m.sections)
    && (forall i | 0 <= i < |m.sections| && m.sections[i].parent.Some? ::
          m.sections[i].parent.value in sections && !Endless(sections, m.sections[i].id))
    && OccurrencesFit(m)
    && HashOf(ElementsPreimage(Elements(m.occurrences))) == m.elements
  }

  lemma {:induction false} ByIdHas(sections: seq<Section>, id: string)
    ensures id in ById(sections) <==> exists i | 0 <= i < |sections| :: sections[i].id == id
    ensures id in ById(sections) ==> ById(sections)[id] in sections && ById(sections)[id].id == id
  {
    if sections != [] {
      var last := |sections| - 1;
      ByIdHas(sections[..last], id);
      if i :| 0 <= i < last && sections[i].id == id { assert sections[..last][i].id == id; }
      if sections[last].id == id { assert exists i | 0 <= i < |sections| :: sections[i].id == id; }
    }
  }

  method CheckSections(sections: seq<Section>) returns (ok: bool, byId: Sections)
    ensures ok <==> SectionsFit(sections)
    ensures ok ==> byId == ById(sections)
  {
    byId := map[];
    for i := 0 to |sections|
      invariant forall j | 0 <= j < i :: SectionFits(sections, j)
      invariant byId == ById(sections[..i])
    {
      var section := sections[i];
      ByIdHas(sections[..i], section.id);
      if section.id == "" || section.title == "" || section.order < 1 || section.id in byId {
        assert !SectionFits(sections, i);
        return false, byId;
      }
      assert sections[..i + 1][..i] == sections[..i];
      byId := byId[section.id := section];
    }
    assert sections[..|sections|] == sections;
    return true, byId;
  }

  /** None exactly for the valid manifests. */
  method Validate(m: Manifest) returns (fault: Option<Fault>)
    ensures fault.None? <==> ValidManifest(m)
  {
    if m.version != "1.0.0" || Size(m.elements) != HashSize { return Some(InvalidManifest); }
    var sectionsOk, sections := CheckSections(m.sections);
    if !sectionsOk { return Some(InvalidManifest); }
    for i := 0 to |m.sections|
      invariant forall j | 0 <= j < i && m.sections[j].parent.Some? ::
                  m.sections[j].parent.value in sections && !Endless(sections, m.sections[j].id)
    {
      var section := m.sections[i];
      assert SectionFits(m.sections, i);
      if section.parent.Some? {
        if section.parent.value !in sections { return Some(InvalidManifest); }
        var cyclic := HasSectionCycle(section.id, sections);
        if cyclic { return Some(CompositionCycle); }
      }
    }
    var elements: seq<Element> := [];
    for i := 0 to |m.occurrences|
      invariant forall j | 0 <= j < i :: OccurrenceFits(sections, m.occurrences, j)
      invariant elements == Elements(m.occurrences[..i])
    {
      if !OccurrenceFits(sections, m.occurrences, i) { return Some(InvalidManifest); }
      assert m.occurrences[..i + 1][..i] == m.occurrences[..i];
      elements := elements + [ElementOf(m.occurrences[i])];
    }
    assert m.occurrences[..|m.occurrences|] == m.occurrences;
    if HashOf(ElementsPreimage(elements)) != m.elements { return Some(InvalidManifest); }
    return None;
  }

  // ---------------------------------------------------------------- an accepted manifest

  /** With every named parent existing, each ancestor is a section. */
  lemma {:induction false} AncestorsAreSections(m: Manifest, id: string, n: nat)
    requires ValidManifest(m) && id in ById(m.sections) && Ancestor(ById(m.sections), id, n).Some?
    ensures Ancestor(ById(m.sections), id, n).value in ById(m.sections)
  {
    if n > 0 {
      var sections := ById(m.sections);
      AncestorsAreSections(m, id, n - 1);
      var child := Ancestor(sections, id, n - 1).value;
      ByIdHas(m.sections, child);
      assert sections[child] in m.sections;
    }
  }

  /** A named parent is a section, so it has a name. */
  lemma ParentIsSection(m: Manifest, id: string)
    requires ValidManifest(m) && id in ById(m.sections)
    ensures ById(m.sections)[id].parent == ParentOf(ById(m.sections), id)
    ensures ById(m.sections)[id].parent.Some? ==> ById(m.sections)[id].parent.value in ById(m.sections)
  {
    ByIdHas(m.sections, id);
    ByIdHas(m.sections, "");
    forall i | 0 <= i < |m.sections| ensures m.sections[i].id != "" { assert SectionFits(m.sections, i); }
  }

  lemma {:induction false} LastAncestor(sections: Sections, id: string, n: nat) returns (last: nat)
    requires id != "" && Ancestor(sections, id, n).None?
    ensures last < n && Ancestor(sections, id, last).Some? && Ancestor(sections, id, last + 1).None?
  {
    if Ancestor(sections, id, n - 1).Some? { last := n - 1; } else { last := LastAncestor(sections, id, n - 1); }
  }

  /** The sections of an accepted manifest form a forest: every chain of parents ends at a root. */
  lemma AcceptedIsForest(m: Manifest, id: string)
    requires ValidManifest(m) && id in ById(m.sections)
    ensures Rooted(ById(m.sections), id)
  {
    var sections := ById(m.sections);
    ByIdHas(m.sections, id);
    var k :| 0 <= k < |m.sections| && m.sections[k] == sections[id];
    assert SectionFits(m.sections, k);
    if m.sections[k].parent.None? {
      assert EndsAt(sections, id, 0);
    } else {
      assert !Endless(sections, id);
      var n: nat :| Ancestor(sections, id, n).None?;
      var last := LastAncestor(sections, id, n);
      forall i | 0 <= i <= last ensures Ancestor(sections, id, i).Some? && Ancestor(sections, id, i).value in sections {
        EarlierAncestors(sections, id, i, last);
        AncestorsAreSections(m, id, i);
      }
      ParentIsSection(m, Ancestor(sections, id, last).value);
      assert EndsAt(sections, id, last);
    }
  }

  /** Two accepted manifests state the same elements hash exactly if they place the same elements, equally often. */
  lemma SameHashSameElements(m: Manifest, n: Manifest)
    requires ValidManifest(m) && ValidManifest(n)
    requires AllPlain(Elements(m.occurrences)) && AllPlain(Elements(n.occurrences))
    ensures m.elements == n.elements <==> multiset(Elements(m.occurrences)) == multiset(Elements(n.occurrences))
  {
    ElementsFaithful(Elements(m.occurrences), Elements(n.occurrences));
  }

  // ---------------------------------------------------------------- what is valid

  predicate HasSection(m: Manifest, id: string) {
    exists j | 0 <= j < |m.sections| :: m.sections[j].id == id
  }

  /** Sections are named and titled, counted from one and no two the same. */
  lemma SectionsExactly(sections: seq<Section>)
    ensures SectionsFit(sections) <==>
            && (forall i | 0 <= i < |sections| :: sections[i].id != "" && sections[i].title != "" && sections[i].order > 0)
            && (forall i, j | 0 <= i < j < |sections| :: sections[i].id != sections[j].id)
  {
    if SectionsFit(sections) {
      forall i | 0 <= i < |sections| ensures sections[i].id != "" && sections[i].title != "" && sections[i].order > 0 {
        assert SectionFits(sections, i);
      }
      forall i, j | 0 <= i < j < |sections| ensures sections[i].id != sections[j].id { assert SectionFits(sections, j); }
    }
  }

  /** An occurrence is identified, lies in a section of the manifest, is counted from one, and names a product, a revision and
      a hash of 64 hexadecimal digits. */
  predicate WellFormed(m: Manifest, o: Occurrence) {
    && o.id != None && o.product != None && o.revision != None && o.order > 0 && o.section != "" && HasSection(m, o.section)
    && |o.hash| == 64
    && forall j | 0 <= j < 64 :: var c := o.hash[j]; '0' <= c <= '9' || 'a' <= c <= 'f' || 'A' <= c <= 'F'
  }

  lemma OccurrenceExactly(m: Manifest, i: nat)
    requires i < |m.occurrences|
    ensures OccurrenceFits(ById(m.sections), m.occurrences, i) <==>
            WellFormed(m, m.occurrences[i]) && forall j | 0 <= j < i :: m.occurrences[j].id != m.occurrences[i].id
  {
    ByIdHas(m.sections, m.occurrences[i].section);
  }

  ghost predicate OccurrencesFit(m: Manifest) {
    forall i | 0 <= i < |m.occurrences| :: OccurrenceFits(ById(m.sections), m.occurrences, i)
  }

  /** The occurrences are accepted exactly if each is well-formed and no two have the same id. */
  lemma OccurrencesExactly(m: Manifest)
    ensures OccurrencesFit(m) <==>
            && (forall i | 0 <= i < |m.occurrences| :: WellFormed(m, m.occurrences[i]))
            && (forall i, j | 0 <= i < j < |m.occurrences| :: m.occurrences[i].id != m.occurrences[j].id)
  {
    if OccurrencesFit(m) {
      forall i | 0 <= i < |m.occurrences| ensures WellFormed(m, m.occurrences[i]) { OccurrenceExactly(m, i); }
      forall i, j | 0 <= i < j < |m.occurrences| ensures m.occurrences[i].id != m.occurrences[j].id { OccurrenceExactly(m, j); }
    }
    if (forall i | 0 <= i < |m.occurrences| :: WellFormed(m, m.occurrences[i])) &&
       forall i, j | 0 <= i < j < |m.occurrences| :: m.occurrences[i].id != m.occurrences[j].id
    {
      forall i | 0 <= i < |m.occurrences| ensures OccurrenceFits(ById(m.sections), m.occurrences, i) { OccurrenceExactly(m, i); }
    }
  }

  /** The elements that are hashed: of each occurrence its product, its revision and its hash. */
  lemma {:induction false} ElementsAre(os: seq<Occurrence>, i: nat)
    requires i < |os| && os[i].product.Some? && os[i].revision.Some?
    ensures |Elements(os)| == |os| && Elements(os)[i] == Element(os[i].product.value, os[i].revision.value, os[i].hash)
  {
    var n := |os| - 1;
    ElementsCount(os[..n]);
    if i < n { ElementsAre(os[..n], i); }
  }

  lemma {:induction false} ElementsCount(os: seq<Occurrence>)
    ensures |Elements(os)| == |os|
  {
    if os != [] { ElementsCount(os[..|os| - 1]); }
  }
}
