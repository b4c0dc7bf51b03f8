/** The collector on the two shapes of `affiliation-group`, for any country and
    two distinct names. */
module Scenarios {
  import opened Tree
  import opened Extractor
  import opened Affiliations

  /** An education group naming institution `n` in country `c`. */
  function Education(c: string, n: string): Node
  {
    Dict([("organization", Dict([("name", Str(n)), ("address", Dict([("country", Str(c))]))]))])
  }

  /** An `activities-summary` whose `educations` hold the group container `ag`. */
  function Activities(ag: Node): Node
  {
    Dict([("educations", Dict([("affiliation-group", ag)]))])
  }

  /** Reading the first key of a dict. */
  lemma SubscriptFirst(k: string, v: Node, rest: seq<(string, Node)>)
    ensures Contains(Dict([(k, v)] + rest), k) == Ok(true)
    ensures Subscript(Dict([(k, v)] + rest), k) == Ok(v)
  {
    IndexOfUnique([(k, v)] + rest, k, 0);
  }

  /** Reading the second key of a two-entry dict. */
  lemma SubscriptSecond(k0: string, v0: Node, k: string, v: Node)
    requires k0 != k
    ensures Subscript(Dict([(k0, v0), (k, v)]), k) == Ok(v)
  {
    IndexOfUnique([(k0, v0), (k, v)], k, 1);
  }

  lemma ReadOrganization(c: string, n: string)
    ensures ReadGroup(Dict([("education-summary", Education(c, n))]), "education-summary") == Pair(c, n)
  {
    var addr := Dict([("country", Str(c))]);
    var es := [("name", Str(n)), ("address", addr)];
    SubscriptFirst("education-summary", Education(c, n), []);
    SubscriptFirst("organization", Dict(es), []);
    SubscriptFirst("name", Str(n), [("address", addr)]);
    SubscriptSecond("name", Str(n), "address", addr);
    SubscriptFirst("country", Str(c), []);
    assert [("education-summary", Education(c, n))] + [] == [("education-summary", Education(c, n))];
    assert [("organization", Dict(es))] + [] == [("organization", Dict(es))];
    assert [("country", Str(c))] + [] == [("country", Str(c))];
    assert [("name", Str(n))] + [("address", addr)] == es;
  }

  /** The pairs of a reading that did not fail, recorded in a fresh index. */
  lemma FreshOne(c: string, n: string)
    ensures InsertAll(IndexState([], map[]), [(c, n)]) == IndexState([c], map[c := [n]])
  {
    assert [(c, n)][..0] == [];
    assert [] + [c] == [c];
  }

  /** A single group (the container holds `last-modified-date`): the container
      itself is read, and a fresh index gains `c -> [n]`. */
  lemma SingleGroup(c: string, n: string, date: Node)
    ensures var ag := Dict([("last-modified-date", date), ("education-summary", Education(c, n))]);
      && ReadSection(Activities(ag), "educations", "education-summary") == Reading([(c, n)], None)
      && Apply(IndexState([], map[]), Reading([(c, n)], None)) == IndexState([c], map[c := [n]])
  {
    var ag := Dict([("last-modified-date", date), ("education-summary", Education(c, n))]);
    assert Contains(ag, "last-modified-date") == Ok(true) by {
      SubscriptFirst("last-modified-date", date, [("education-summary", Education(c, n))]);
      assert [("last-modified-date", date)] + [("education-summary", Education(c, n))] == ag.entries;
    }
    SectionSingle(ag);
    ReadSingle(c, n, date);
    assert ReadGroups([ag], "education-summary") == Reading([(c, n)], None) by {
      assert [ag][..0] == [];
      assert ReadGroups([ag], "education-summary") == Reading([] + [(c, n)], None);
      assert [] + [(c, n)] == [(c, n)];
    }
    FreshOne(c, n);
  }

  /** The single group next to its `last-modified-date` reads as its pair. */
  lemma ReadSingle(c: string, n: string, date: Node)
    ensures ReadGroup(Dict([("last-modified-date", date), ("education-summary", Education(c, n))]), "education-summary")
         == Pair(c, n)
  {
    SubscriptSecond("last-modified-date", date, "education-summary", Education(c, n));
    ReadOrganization(c, n);
  }

  /** The section and the group container of `Activities(ag)`. */
  lemma SectionOf(ag: Node)
    ensures var sec := Dict([("affiliation-group", ag)]);
      && Contains(Activities(ag), "educations") == Ok(true) && Subscript(Activities(ag), "educations") == Ok(sec)
      && Contains(sec, "affiliation-group") == Ok(true) && Subscript(sec, "affiliation-group") == Ok(ag)
  {
    var sec := Dict([("affiliation-group", ag)]);
    SubscriptFirst("educations", sec, []);
    SubscriptFirst("affiliation-group", ag, []);
    assert [("educations", sec)] + [] == [("educations", sec)];
    assert [("affiliation-group", ag)] + [] == [("affiliation-group", ag)];
  }

  /** A container holding `last-modified-date` is read as one group. */
  lemma SectionSingle(ag: Node)
    requires ag.Dict? && Contains(ag, "last-modified-date") == Ok(true)
    ensures ReadSection(Activities(ag), "educations", "education-summary") == ReadGroups([ag], "education-summary")
  {
    SectionOf(ag);
  }

  /** A container without `last-modified-date` is read value by value. */
  lemma ReadContainer(ag: Node)
    requires ag.Dict? && "last-modified-date" !in Keys(ag.entries)
    ensures ReadSection(Activities(ag), "educations", "education-summary")
         == ReadGroups(GroupValues(ag).value, "education-summary")
  {
    SectionOf(ag);
  }

  /** The values of the container `{"0": g1, "1": g2}`. */
  lemma TwoValues(g1: Node, g2: Node)
    ensures var ag := Dict([("0", g1), ("1", g2)]);
      "last-modified-date" !in Keys(ag.entries) && GroupValues(ag) == Ok([g1, g2])
  {
    var ag := Dict([("0", g1), ("1", g2)]);
    assert Keys(ag.entries) == ["0", "1"];
    IndexOfUnique(ag.entries, "0", 0);
    IndexOfUnique(ag.entries, "1", 1);
    assert GroupAt(ag.entries, 0) == g1 && GroupAt(ag.entries, 1) == g2;
    var gs := GroupValues(ag).value;
    assert |gs| == 2 && gs[0] == g1 && gs[1] == g2;
    assert gs == [g1, g2];
  }

  /** Two groups that read cleanly give their pairs in order. */
  lemma ReadTwo(g1: Node, g2: Node, p1: (string, string), p2: (string, string))
    requires ReadGroup(g1, "education-summary") == Pair(p1.0, p1.1)
    requires ReadGroup(g2, "education-summary") == Pair(p2.0, p2.1)
    ensures ReadGroups([g1, g2], "education-summary") == Reading([p1, p2], None)
  {
    assert [g1, g2][..1] == [g1] && [g1][..0] == [];
    assert ReadGroups([g1], "education-summary") == Reading([] + [p1], None);
    assert [] + [p1] == [p1];
    assert ReadGroups([g1, g2], "education-summary") == Reading([p1] + [p2], None);
  }

  /** Two distinct names of one country, recorded in a fresh index. */
  lemma FreshTwo(c: string, n1: string, n2: string)
    requires n1 != n2
    ensures InsertAll(IndexState([], map[]), [(c, n1), (c, n2)]) == IndexState([c], map[c := [n1, n2]])
  {
    var ps := [(c, n1), (c, n2)];
    assert ps[..1] == [(c, n1)];
    FreshOne(c, n1);
    assert [n1] + [n2] == [n1, n2];
  }

  /** Several groups (keys "0", "1", no `last-modified-date`): each is read in
      order, and a fresh index gains `c -> [n1, n2]` for distinct names. */
  lemma TwoGroups(c: string, n1: string, n2: string)
    requires n1 != n2
    ensures var g1, g2 := Dict([("education-summary", Education(c, n1))]), Dict([("education-summary", Education(c, n2))]);
      var ag := Dict([("0", g1), ("1", g2)]);
      && ReadSection(Activities(ag), "educations", "education-summary") == Reading([(c, n1), (c, n2)], None)
      && Apply(IndexState([], map[]), Reading([(c, n1), (c, n2)], None)) == IndexState([c], map[c := [n1, n2]])
  {
    var g1, g2 := Dict([("education-summary", Education(c, n1))]), Dict([("education-summary", Education(c, n2))]);
    TwoValues(g1, g2);
    ReadContainer(Dict([("0", g1), ("1", g2)]));
    ReadOrganization(c, n1);
    ReadOrganization(c, n2);
    ReadTwo(g1, g2, (c, n1), (c, n2));
    FreshTwo(c, n1, n2);
  }
}
