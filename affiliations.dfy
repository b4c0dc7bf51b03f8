/** The affiliation collector: the part of `open_data_folders` that, for every
    extracted (and cleaned) researcher document, reads the institutions of its
    `educations` and `employments` sections into the index `task1`, which maps
    a country to the list of institution names seen for it, without repeats.

    The reading of one document is specified as a value (`Affiliations`: the
    (country, name) pairs in the order the source meets them and, when a read
    raised, the error), and the index as a state that `Apply` updates with a
    reading. The class `AffiliationIndex` and its methods are the loops and
    assignments of the source, proved to update its state by `Apply`. */
module Affiliations {
  import opened Tree
  import opened Extractor

  // ---------------------------------------------------------------------------
  // The index.

  /** `task1`: the countries in insertion order and, per country, its names. */
  datatype IndexState = IndexState(countries: seq<string>, insts: map<string, seq<string>>)

  predicate NoDup(xs: seq<string>)
  {
    forall i, j :: 0 <= i < j < |xs| ==> xs[i] != xs[j]
  }

  /** The index is a dict (each country once, its keys exactly the listed
      countries) whose lists hold no name twice. */
  ghost predicate WellFormed(s: IndexState)
  {
    NoDup(s.countries)
    && (forall c :: c in s.insts <==> c in s.countries)
    && (forall c :: c in s.insts ==> NoDup(s.insts[c]))
  }

  /** The index records name `n` for country `c`. */
  predicate Holds(s: IndexState, c: string, n: string)
  {
    c in s.insts && n in s.insts[c]
  }

  /** `if country not in task1: task1[country] = []`. */
  function Opened(s: IndexState, c: string): IndexState
  {
    if c in s.insts then s else IndexState(s.countries + [c], s.insts[c := []])
  }

  /** Recording one (country, name) pair: an unseen country gets `[name]`, a
      name already listed is not added again, any other name is appended. */
  function Inserted(s: IndexState, c: string, n: string): IndexState
  {
    if c !in s.insts then IndexState(s.countries + [c], s.insts[c := [n]])
    else if n in s.insts[c] then s
    else IndexState(s.countries, s.insts[c := s.insts[c] + [n]])
  }

  /** Recording pairs in order. */
  function InsertAll(s: IndexState, ps: seq<(string, string)>): IndexState
  {
    if ps == [] then s
    else Inserted(InsertAll(s, ps[..|ps| - 1]), ps[|ps| - 1].0, ps[|ps| - 1].1)
  }

  // ---------------------------------------------------------------------------
  // Reading a document.

  /** A read that raised: the error and, when the country had been read
      before the name failed, that country (the source has by then created an
      empty list for it if it was new). */
  datatype Failure = Failure(error: PyError, countryRead: Option<string>)

  /** What one affiliation group yields. */
  datatype GroupRead = Pair(country: string, name: string) | Fail(failure: Failure)

  /** The pairs read from a document, in order, and the failure that ended the
      reading early, if any. */
  datatype Reading = Reading(pairs: seq<(string, string)>, failure: Option<Failure>)

  /** A failure before any country was read. */
  function Raised(e: PyError): Reading
  {
    Reading([], Some(Failure(e, None)))
  }

  /** `group_info[summary]['organization']`, then its `['address']['country']`
      and `['name']`. A country must be text (a dict or list is unhashable, a
      TypeError; `None` is refused, see README) and so must a name. */
  function ReadGroup(g: Node, summary: string): GroupRead
  {
    var s := Subscript(g, summary);
    if s.Err? then Fail(Failure(s.error, None)) else
    var org := Subscript(s.value, "organization");
    if org.Err? then Fail(Failure(org.error, None)) else
    var addr := Subscript(org.value, "address");
    if addr.Err? then Fail(Failure(addr.error, None)) else
    var cv := Subscript(addr.value, "country");
    if cv.Err? then Fail(Failure(cv.error, None))
    else if cv.value.Null? then Fail(Failure(NotText, None))
    else if !cv.value.Str? then Fail(Failure(TypeError, None))
    else
      var c := cv.value.s;
      var nv := Subscript(org.value, "name");
      if nv.Err? then Fail(Failure(nv.error, Some(c)))
      else if !nv.value.Str? then Fail(Failure(NotText, Some(c)))
      else Pair(c, nv.value.s)
  }

  /** The groups in order, reading stopping at the first failure. */
  function ReadGroups(gs: seq<Node>, summary: string): Reading
  {
    if gs == [] then Reading([], None)
    else
      var r := ReadGroups(gs[..|gs| - 1], summary);
      if r.failure.Some? then r
      else match ReadGroup(gs[|gs| - 1], summary)
        case Pair(c, n) => Reading(r.pairs + [(c, n)], None)
        case Fail(f) => Reading(r.pairs, Some(f))
  }

  /** `ag[str(group)]` for the `i`-th key `group` of the dict `ag`. */
  function GroupAt(es: seq<(string, Node)>, i: nat): Node
    requires i < |es|
  {
    assert Keys(es)[i] == es[i].0;
    Get(es, es[i].0)
  }

  /** The groups `for group in ag` visits: a dict's values by key; text or a
      list cannot be subscripted by a string, which fails at the first
      element (and not at all when there is none). */
  function GroupValues(ag: Node): (r: Result<seq<Node>>)
    ensures r.Ok? <==> ag.Dict? || ag == Str("") || ag == List([])
    ensures r.Err? ==> r.error == TypeError
    ensures r.Ok? && !ag.Dict? ==> r.value == []
    ensures ag.Dict? ==> |r.value| == |ag.entries|
    ensures ag.Dict? ==> forall i :: 0 <= i < |ag.entries| ==> r.value[i] == Get(ag.entries, ag.entries[i].0)
    // Keys are distinct in a Python dict: each group is the value beside its key.
    ensures ag.Dict? && UniqueKeys(ag.entries) ==>
      forall i :: 0 <= i < |ag.entries| ==> r.value[i] == ag.entries[i].1
  {
    match ag
    case Dict(es) =>
      GetUnique(es);
      Ok(seq(|es|, i requires 0 <= i < |es| => GroupAt(es, i)))
    case Str(s) => if s == "" then Ok([]) else Err(TypeError)
    case List(xs) => if xs == [] then Ok([]) else Err(TypeError)
    case Null => Err(TypeError)
  }

  /** One section (`educations` with `education-summary`, or `employments` with
      `employment-summary`): skipped when absent or without `affiliation-group`;
      a group container holding `last-modified-date` is the single group,
      otherwise each of its entries is a group. */
  function ReadSection(acts: Node, section: string, summary: string): Reading
  {
    var has := Contains(acts, section);
    if has.Err? then Raised(has.error)
    else if !has.value then Reading([], None)
    else
      var sec := Subscript(acts, section);
      if sec.Err? then Raised(sec.error) else
      var hasGroups := Contains(sec.value, "affiliation-group");
      if hasGroups.Err? then Raised(hasGroups.error)
      else if !hasGroups.value then Reading([], None)
      else
        var ag := Subscript(sec.value, "affiliation-group");
        if ag.Err? then Raised(ag.error) else
        var single := Contains(ag.value, "last-modified-date");
        if single.Err? then Raised(single.error)
        else if single.value then ReadGroups([ag.value], summary)
        else
          var gs := GroupValues(ag.value);
          if gs.Err? then Raised(gs.error) else ReadGroups(gs.value, summary)
  }

  /** The branches of `ReadSection` on any `activities-summary`: `None` cannot be
      searched, an absent section or an absent `affiliation-group` reads
      nothing, a container holding `last-modified-date` is one group, and any
      other dict container is read value by value. */
  lemma SectionShapes(acts: Node, section: string, summary: string)
    ensures acts.Null? ==> ReadSection(acts, section, summary) == Raised(TypeError)
    ensures acts.Dict? && section !in Keys(acts.entries) ==> ReadSection(acts, section, summary) == Reading([], None)
    ensures acts.Dict? && section in Keys(acts.entries) ==>
      var sec := Get(acts.entries, section);
      && (sec.Dict? && "affiliation-group" !in Keys(sec.entries) ==> ReadSection(acts, section, summary) == Reading([], None))
      && (sec.Dict? && "affiliation-group" in Keys(sec.entries) ==>
            var ag := Get(sec.entries, "affiliation-group");
            && (ag.Dict? && "last-modified-date" in Keys(ag.entries) ==>
                  ReadSection(acts, section, summary) == ReadGroups([ag], summary))
            && (ag.Dict? && "last-modified-date" !in Keys(ag.entries) ==>
                  ReadSection(acts, section, summary) == ReadGroups(GroupValues(ag).value, summary)))
  {
  }

  /** Reading `b` after `a`, unless `a` ended with a failure. */
  function Then(a: Reading, b: Reading): Reading
  {
    if a.failure.Some? then a else Reading(a.pairs + b.pairs, b.failure)
  }

  /** One document: nothing for the empty dict the extractor returns for a
      record of the wrong shape, otherwise educations then employments of its
      `activities-summary`. */
  function Affiliations(doc: seq<(string, Node)>): Reading
  {
    if doc == [] then Reading([], None)
    else if "activities-summary" !in Keys(doc) then Raised(KeyError("activities-summary"))
    else
      var acts := Get(doc, "activities-summary");
      Then(ReadSection(acts, "educations", "education-summary"),
           ReadSection(acts, "employments", "employment-summary"))
  }

  /** The index after a reading: its pairs recorded, and the country of a
      failed name read opened. */
  function Apply(s: IndexState, r: Reading): IndexState
  {
    var t := InsertAll(s, r.pairs);
    if r.failure.Some? && r.failure.value.countryRead.Some? then Opened(t, r.failure.value.countryRead.value) else t
  }

  function ErrorOf(r: Reading): Option<PyError>
  {
    if r.failure.Some? then Some(r.failure.value.error) else None
  }

  /** The update one group makes. */
  function ApplyGroup(s: IndexState, g: GroupRead): IndexState
  {
    match g
    case Pair(c, n) => Inserted(s, c, n)
    case Fail(f) => if f.countryRead.Some? then Opened(s, f.countryRead.value) else s
  }

  function GroupError(g: GroupRead): Option<PyError>
  {
    match g
    case Pair(_, _) => None
    case Fail(f) => Some(f.error)
  }

  // ---------------------------------------------------------------------------
  // What recording does to the index.

  /** Recording a pair keeps the index well formed and records the pair; an
      unseen country is added at the end with `[n]`; a pair already recorded
      changes nothing; otherwise `n` is appended to the country's list; every
      earlier list is a prefix of the new one and no other country changes. */
  lemma InsertedSpec(s: IndexState, c: string, n: string)
    requires WellFormed(s)
    ensures var r := Inserted(s, c, n);
      && WellFormed(r)
      && Holds(r, c, n)
      && (c !in s.insts ==> r.countries == s.countries + [c] && r.insts[c] == [n])
      && (Holds(s, c, n) ==> r == s)
      && (c in s.insts && n !in s.insts[c] ==> r.countries == s.countries && r.insts[c] == s.insts[c] + [n])
      && s.countries <= r.countries
      && (forall d :: d in s.insts ==> d in r.insts && s.insts[d] <= r.insts[d])
      && (forall d :: d in s.insts && d != c ==> r.insts[d] == s.insts[d])
  {
    var r := Inserted(s, c, n);
    if c !in s.insts {
      assert c !in s.countries;
      forall i, j | 0 <= i < j < |r.countries| ensures r.countries[i] != r.countries[j] {
        if j == |s.countries| {
          assert r.countries[i] == s.countries[i];
        }
      }
    } else if n !in s.insts[c] {
      var l := s.insts[c] + [n];
      forall i, j | 0 <= i < j < |l| ensures l[i] != l[j] {
        if j == |s.insts[c]| {
          assert l[i] == s.insts[c][i];
        }
      }
    }
  }

  /** Creating the empty list of an unseen country and appending to it is
      recording the pair. */
  lemma OpenThenInsert(s: IndexState, c: string, n: string)
    requires c !in s.insts
    ensures Inserted(Opened(s, c), c, n) == Inserted(s, c, n)
  {
    assert [] + [n] == [n];
    assert s.insts[c := []][c := [n]] == s.insts[c := [n]];
  }

  /** Recording a pair adds exactly that pair to what the index records. */
  lemma InsertedHolds(s: IndexState, c: string, n: string)
    ensures forall d, m :: Holds(Inserted(s, c, n), d, m) <==> Holds(s, d, m) || (d == c && m == n)
  {
  }

  /** Opening a country keeps the index well formed and what it records; an
      unseen country is added at the end with an empty list. */
  lemma OpenedSpec(s: IndexState, c: string)
    requires WellFormed(s)
    ensures var r := Opened(s, c);
      && WellFormed(r)
      && c in r.insts
      && (c !in s.insts ==> r.countries == s.countries + [c] && r.insts[c] == [])
      && (c in s.insts ==> r == s)
      && (forall d, m :: Holds(r, d, m) <==> Holds(s, d, m))
  {
    if c !in s.insts {
      var r := Opened(s, c);
      assert c !in s.countries;
      forall i, j | 0 <= i < j < |r.countries| ensures r.countries[i] != r.countries[j] {
        if j == |s.countries| {
          assert r.countries[i] == s.countries[i];
        }
      }
    }
  }

  /** Recording pairs in order records exactly those pairs besides what the
      index held (duplicates collapse). */
  lemma {:induction false} InsertAllHolds(s: IndexState, ps: seq<(string, string)>)
    ensures forall d, m :: Holds(InsertAll(s, ps), d, m) <==> Holds(s, d, m) || (d, m) in ps
  {
    if ps != [] {
      var q := ps[..|ps| - 1];
      InsertAllHolds(s, q);
      InsertedHolds(InsertAll(s, q), ps[|ps| - 1].0, ps[|ps| - 1].1);
      assert ps == q + [ps[|ps| - 1]];
    }
  }

  /** Recording pairs keeps the index well formed and only ever extends it:
      the old countries stay in order in front, and every old list is a prefix
      of the new one. */
  lemma {:induction false} InsertAllSpec(s: IndexState, ps: seq<(string, string)>)
    requires WellFormed(s)
    ensures var r := InsertAll(s, ps);
      && WellFormed(r)
      && s.countries <= r.countries
      && (forall d :: d in s.insts ==> d in r.insts && s.insts[d] <= r.insts[d])
  {
    if ps != [] {
      var q := ps[..|ps| - 1];
      InsertAllSpec(s, q);
      var t := InsertAll(s, q);
      InsertedSpec(t, ps[|ps| - 1].0, ps[|ps| - 1].1);
      PrefixTrans(s.countries, t.countries, InsertAll(s, ps).countries);
      forall d | d in s.insts ensures d in InsertAll(s, ps).insts && s.insts[d] <= InsertAll(s, ps).insts[d] {
        PrefixTrans(s.insts[d], t.insts[d], InsertAll(s, ps).insts[d]);
      }
    }
  }

  lemma PrefixTrans(a: seq<string>, b: seq<string>, c: seq<string>)
    requires a <= b && b <= c
    ensures a <= c
  {
    assert b[..|a|] == a;
  }

  /** Pairs the index already records change nothing. */
  lemma {:induction false} InsertAllPresent(s: IndexState, ps: seq<(string, string)>)
    requires forall p :: p in ps ==> Holds(s, p.0, p.1)
    ensures InsertAll(s, ps) == s
  {
    if ps != [] {
      var q := ps[..|ps| - 1];
      assert forall p :: p in q ==> p in ps;
      InsertAllPresent(s, q);
      assert ps[|ps| - 1] in ps;
    }
  }

  lemma {:induction false} InsertAllConcat(s: IndexState, p: seq<(string, string)>, q: seq<(string, string)>)
    ensures InsertAll(s, p + q) == InsertAll(InsertAll(s, p), q)
  {
    if q != [] {
      var q' := q[..|q| - 1];
      InsertAllConcat(s, p, q');
      assert (p + q)[..|p + q| - 1] == p + q';
    } else {
      assert p + q == p;
    }
  }

  /** Applying a reading keeps the index well formed, records exactly its pairs
      besides what was there, and only extends the index. */
  lemma ApplySpec(s: IndexState, r: Reading)
    requires WellFormed(s)
    ensures var t := Apply(s, r);
      && WellFormed(t)
      && (forall d, m :: Holds(t, d, m) <==> Holds(s, d, m) || (d, m) in r.pairs)
      && s.countries <= t.countries
      && (forall d :: d in s.insts ==> d in t.insts && s.insts[d] <= t.insts[d])
  {
    var u := InsertAll(s, r.pairs);
    InsertAllSpec(s, r.pairs);
    InsertAllHolds(s, r.pairs);
    if r.failure.Some? && r.failure.value.countryRead.Some? {
      OpenedSpec(u, r.failure.value.countryRead.value);
      PrefixTrans(s.countries, u.countries, Apply(s, r).countries);
    }
  }

  /** Reading the same document twice leaves the index as reading it once. */
  lemma ApplyIdempotent(s: IndexState, r: Reading)
    ensures Apply(Apply(s, r), r) == Apply(s, r)
  {
    var u := InsertAll(s, r.pairs);
    var t := Apply(s, r);
    InsertAllHolds(s, r.pairs);
    assert forall p :: p in r.pairs ==> Holds(t, p.0, p.1);
    InsertAllPresent(t, r.pairs);
  }

  /** Reading two parts in turn is applying the first and then the second. */
  lemma ApplyThen(s: IndexState, a: Reading, b: Reading)
    requires a.failure.None?
    ensures Apply(s, Then(a, b)) == Apply(Apply(s, a), b)
  {
    InsertAllConcat(s, a.pairs, b.pairs);
  }

  /** One group read as the whole container is that group's update. */
  lemma ApplySingle(s: IndexState, g: Node, summary: string)
    ensures Apply(s, ReadGroups([g], summary)) == ApplyGroup(s, ReadGroup(g, summary))
    ensures ErrorOf(ReadGroups([g], summary)) == GroupError(ReadGroup(g, summary))
  {
    assert [g][..0] == [] && [g][..1] == [g] && [g][0] == g;
    ReadGroupsNext(s, [g], summary, 0);
  }

  /** The value under `k` of a dict that has it. */
  function Lookup(v: Option<Node>, k: string): Option<Node>
  {
    if v.Some? && v.value.Dict? && k in Keys(v.value.entries) then Some(Get(v.value.entries, k)) else None
  }

  /** A group reads as a pair exactly when `summary.organization.address.country`
      and `summary.organization.name` both lead to text, and then those are the
      pair; a key missing along the way is a KeyError for that key, and only a
      missing or non-text name leaves the country already read behind. */
  lemma ReadGroupSpec(g: Node, summary: string)
    ensures var r, org := ReadGroup(g, summary), Lookup(Lookup(Some(g), summary), "organization");
      var country, name := Lookup(Lookup(org, "address"), "country"), Lookup(org, "name");
      && (r.Pair? <==> country.Some? && country.value.Str? && name.Some? && name.value.Str?)
      && (r.Pair? ==> r.country == country.value.s && r.name == name.value.s)
      && (r.Fail? && r.failure.countryRead.Some? ==> country == Some(Str(r.failure.countryRead.value)))
      && (g.Dict? && summary !in Keys(g.entries) ==> r == Fail(Failure(KeyError(summary), None)))
      && (Lookup(Some(g), summary).Some? && Lookup(Some(g), summary).value.Dict? && org.None? ==>
            r == Fail(Failure(KeyError("organization"), None)))
      && (org.Some? && org.value.Dict? && Lookup(org, "address").None? ==>
            r == Fail(Failure(KeyError("address"), None)))
      && (Lookup(org, "address").Some? && Lookup(org, "address").value.Dict? && country.None? ==>
            r == Fail(Failure(KeyError("country"), None)))
      && (country.Some? && country.value.Str? && org.value.Dict? && name.None? ==>
            r == Fail(Failure(KeyError("name"), Some(country.value.s))))
  {
    ReadGroupPair(g, summary);
    ReadGroupMissing(g, summary);
  }

  /** When a group reads as a pair, and where that pair comes from. */
  lemma ReadGroupPair(g: Node, summary: string)
    ensures var r, org := ReadGroup(g, summary), Lookup(Lookup(Some(g), summary), "organization");
      var country, name := Lookup(Lookup(org, "address"), "country"), Lookup(org, "name");
      && (r.Pair? <==> country.Some? && country.value.Str? && name.Some? && name.value.Str?)
      && (r.Pair? ==> r.country == country.value.s && r.name == name.value.s)
      && (r.Fail? && r.failure.countryRead.Some? ==> country == Some(Str(r.failure.countryRead.value)))
  {
  }

  /** The KeyError of each key missing on the way to the country and the name. */
  lemma ReadGroupMissing(g: Node, summary: string)
    ensures var r, org := ReadGroup(g, summary), Lookup(Lookup(Some(g), summary), "organization");
      var country, name := Lookup(Lookup(org, "address"), "country"), Lookup(org, "name");
      && (g.Dict? && summary !in Keys(g.entries) ==> r == Fail(Failure(KeyError(summary), None)))
      && (Lookup(Some(g), summary).Some? && Lookup(Some(g), summary).value.Dict? && org.None? ==>
            r == Fail(Failure(KeyError("organization"), None)))
      && (org.Some? && org.value.Dict? && Lookup(org, "address").None? ==>
            r == Fail(Failure(KeyError("address"), None)))
      && (Lookup(org, "address").Some? && Lookup(org, "address").value.Dict? && country.None? ==>
            r == Fail(Failure(KeyError("country"), None)))
      && (country.Some? && country.value.Str? && org.value.Dict? && name.None? ==>
            r == Fail(Failure(KeyError("name"), Some(country.value.s))))
  {
  }

  /** The `i`-th group of a dict container is the value under its `i`-th key. */
  lemma GroupValuesAt(es: seq<(string, Node)>, i: nat)
    requires i < |es|
    ensures Keys(es)[i] in Keys(es) && Get(es, Keys(es)[i]) == GroupValues(Dict(es)).value[i]
  {
  }

  /** Reading one more group after a clean prefix is that group's update and
      error; when it reads cleanly the reading stays clean. */
  lemma ReadGroupsNext(s0: IndexState, gs: seq<Node>, summary: string, i: nat)
    requires i < |gs| && ReadGroups(gs[..i], summary).failure.None?
    ensures var p, r, g := ReadGroups(gs[..i], summary), ReadGroups(gs[..i + 1], summary), ReadGroup(gs[i], summary);
      && Apply(s0, r) == ApplyGroup(InsertAll(s0, p.pairs), g)
      && ErrorOf(r) == GroupError(g)
      && (g.Pair? ==> r.failure.None? && Apply(s0, r) == InsertAll(s0, r.pairs))
  {
    var p := ReadGroups(gs[..i], summary);
    assert gs[..i + 1][..i] == gs[..i] && gs[..i + 1][i] == gs[i];
    match ReadGroup(gs[i], summary)
    case Pair(c, n) =>
      assert (p.pairs + [(c, n)])[..|p.pairs|] == p.pairs;
    case Fail(f) =>
  }

  /** The first `i` groups read cleanly, and `s` is `s0` after their pairs. */
  ghost predicate Clean(s0: IndexState, s: IndexState, gs: seq<Node>, summary: string, i: nat)
  {
    i <= |gs| && ReadGroups(gs[..i], summary).failure.None? && s == Apply(s0, ReadGroups(gs[..i], summary))
  }

  /** All groups read cleanly. */
  lemma CleanAll(s0: IndexState, s: IndexState, gs: seq<Node>, summary: string, i: nat)
    requires Clean(s0, s, gs, summary, i) && i == |gs|
    ensures s == Apply(s0, ReadGroups(gs, summary)) && ErrorOf(ReadGroups(gs, summary)).None?
  {
    assert gs[..i] == gs;
  }

  /** Once a prefix of the groups has failed, the reading of all of them is
      that prefix's. */
  lemma {:induction false} FailureStops(gs: seq<Node>, summary: string, k: nat)
    requires k <= |gs| && ReadGroups(gs[..k], summary).failure.Some?
    ensures ReadGroups(gs, summary) == ReadGroups(gs[..k], summary)
    decreases |gs| - k
  {
    if k < |gs| {
      assert gs[..k + 1][..k] == gs[..k];
      FailureStops(gs, summary, k + 1);
    } else {
      assert gs[..k] == gs;
    }
  }

  // ---------------------------------------------------------------------------
  // The source's loops.

  /** `task1`, updated in place by the collector. */
  class AffiliationIndex {
    var countries: seq<string>
    var insts: map<string, seq<string>>

    function State(): IndexState
      reads this
    {
      IndexState(countries, insts)
    }

    ghost predicate Valid()
      reads this
    {
      WellFormed(State())
    }

    /** `task1 = {}`. */
    constructor ()
      ensures Valid() && State() == IndexState([], map[])
    {
      countries := [];
      insts := map[];
    }

    /** `if country not in task1: task1[country] = []`. */
    method Open(country: string)
      requires Valid()
      modifies this
      ensures Valid() && State() == Opened(old(State()), country)
    {
      OpenedSpec(State(), country);
      if country !in insts {
        countries := countries + [country];
        insts := insts[country := []];
      }
    }

    /** `task1[country].append(name)` for a name not yet listed. */
    method Append(country: string, name: string)
      requires Valid() && country in insts && name !in insts[country]
      modifies this
      ensures Valid() && State() == Inserted(old(State()), country, name)
    {
      InsertedSpec(State(), country, name);
      insts := insts[country := insts[country] + [name]];
    }

    /** One group: read its organization's country and name and record them. */
    method AddGroup(g: Node, summary: string) returns (err: Option<PyError>)
      requires Valid()
      modifies this
      ensures Valid()
      ensures State() == ApplyGroup(old(State()), ReadGroup(g, summary))
      ensures err == GroupError(ReadGroup(g, summary))
    {
      var s := Subscript(g, summary);
      if s.Err? { return Some(s.error); }
      var org := Subscript(s.value, "organization");
      if org.Err? { return Some(org.error); }
      var addr := Subscript(org.value, "address");
      if addr.Err? { return Some(addr.error); }
      var cv := Subscript(addr.value, "country");
      if cv.Err? { return Some(cv.error); }
      if cv.value.Null? { return Some(NotText); }
      if !cv.value.Str? { return Some(TypeError); }
      var country := cv.value.s;
      if country !in insts {
        Open(country);
        var nv := Subscript(org.value, "name");
        if nv.Err? { return Some(nv.error); }
        if !nv.value.Str? { return Some(NotText); }
        Append(country, nv.value.s);
        OpenThenInsert(old(State()), country, nv.value.s);
      } else {
        var nv := Subscript(org.value, "name");
        if nv.Err? { return Some(nv.error); }
        if !nv.value.Str? { return Some(NotText); }
        if nv.value.s !in insts[country] {
          Append(country, nv.value.s);
        }
      }
      return None;
    }

    /** `for group in ag: group_info = ag[str(group)] ...` over a dict of groups. */
    method AddGroups(es: seq<(string, Node)>, summary: string) returns (err: Option<PyError>)
      requires Valid()
      modifies this
      ensures Valid()
      ensures State() == Apply(old(State()), ReadGroups(GroupValues(Dict(es)).value, summary))
      ensures err == ErrorOf(ReadGroups(GroupValues(Dict(es)).value, summary))
    {
      ghost var gs := GroupValues(Dict(es)).value;
      ghost var s0 := State();
      var i := 0;
      while i < |es|
        invariant 0 <= i <= |es| && Valid()
        invariant Clean(s0, State(), gs, summary, i)
      {
        err := AddGroupAt(es, summary, i, s0, gs);
        if err.Some? {
          return;
        }
        i := i + 1;
      }
      CleanAll(s0, State(), gs, summary, i);
      return None;
    }

    /** The visit of the `i`-th key by the loop of `AddGroups`, after a prefix
        that read cleanly: either the next prefix reads cleanly too, or the
        reading of all groups stops here. */
    method AddGroupAt(es: seq<(string, Node)>, summary: string, i: nat, ghost s0: IndexState, ghost gs: seq<Node>)
      returns (err: Option<PyError>)
      requires Valid() && i < |es| && gs == GroupValues(Dict(es)).value
      requires Clean(s0, State(), gs, summary, i)
      modifies this
      ensures Valid()
      ensures err.None? ==> Clean(s0, State(), gs, summary, i + 1)
      ensures err.Some? ==> State() == Apply(s0, ReadGroups(gs, summary)) && err == ErrorOf(ReadGroups(gs, summary))
    {
      GroupValuesAt(es, i);
      ReadGroupsNext(s0, gs, summary, i);
      var keys := Keys(es);
      err := AddGroup(Get(es, keys[i]), summary);
      if err.Some? {
        FailureStops(gs, summary, i + 1);
      }
    }

    /** One section of lines 133-158 (educations) or 162-187 (employments). */
    method AddSection(acts: Node, section: string, summary: string) returns (err: Option<PyError>)
      requires Valid()
      modifies this
      ensures Valid()
      ensures State() == Apply(old(State()), ReadSection(acts, section, summary))
      ensures err == ErrorOf(ReadSection(acts, section, summary))
    {
      var has := Contains(acts, section);
      if has.Err? { return Some(has.error); }
      if !has.value { return None; }
      var sec := Subscript(acts, section);
      if sec.Err? { return Some(sec.error); }
      var hasGroups := Contains(sec.value, "affiliation-group");
      if hasGroups.Err? { return Some(hasGroups.error); }
      if !hasGroups.value { return None; }
      var ag := Subscript(sec.value, "affiliation-group");
      if ag.Err? { return Some(ag.error); }
      var single := Contains(ag.value, "last-modified-date");
      if single.Err? { return Some(single.error); }
      if single.value {
        ApplySingle(State(), ag.value, summary);
        err := AddGroup(ag.value, summary);
      } else {
        var gs := GroupValues(ag.value);
        if gs.Err? { return Some(gs.error); }
        if ag.value.Dict? {
          err := AddGroups(ag.value.entries, summary);
        } else {
          assert gs.value == [];
          err := None;
        }
      }
    }

    /** The collector's work on one extracted document `researcher_data`. */
    method AddDocument(doc: seq<(string, Node)>) returns (err: Option<PyError>)
      requires Valid()
      modifies this
      ensures Valid()
      ensures State() == Apply(old(State()), Affiliations(doc))
      ensures err == ErrorOf(Affiliations(doc))
    {
      if doc == [] { return None; }
      if "activities-summary" !in Keys(doc) { return Some(KeyError("activities-summary")); }
      var acts := Get(doc, "activities-summary");
      ghost var s0 := State();
      ghost var edu := ReadSection(acts, "educations", "education-summary");
      ghost var emp := ReadSection(acts, "employments", "employment-summary");
      err := AddSection(acts, "educations", "education-summary");
      if err.Some? { return; }
      ApplyThen(s0, edu, emp);
      err := AddSection(acts, "employments", "employment-summary");
    }
  }
}
