/** The record extractor `extract_information_from_xml`: check the
    `record:record` wrapper and its two required subtrees, keep only those,
    derive `_id` from the person's `@path`, and run the top-level key cleaner.
    The parsed document is a dict (the parser always yields one at the top). */
module Extractor {
  import opened Tree
  import opened Text
  import opened Normaliser

  const Wrapper := "record:record"
  const PersonKey := "person:person"
  const ActivitiesKey := "activities:activities-summary"

  /** Python's `key in v`: key membership for a dict, substring for text,
      element equality for a list; `None` is not iterable. */
  function Contains(v: Node, key: string): (r: Result<bool>)
    ensures r.Err? <==> v.Null?
    ensures r.Err? ==> r.error == TypeError
    ensures v.Dict? ==> (r == Ok(true) <==> exists i :: 0 <= i < |v.entries| && v.entries[i].0 == key)
    ensures v.Str? ==> (r == Ok(true) <==> exists i :: OccursAt(key, v.s, i))
    ensures v.List? ==> (r == Ok(true) <==> exists i :: 0 <= i < |v.items| && v.items[i] == Str(key))
  {
    match v
    case Dict(es) => Ok(key in Keys(es))
    case Str(s) =>
      IsSubstringOccurs(key, s);
      Ok(IsSubstring(key, s))
    case List(xs) => Ok(Str(key) in xs)
    case Null => Err(TypeError)
  }

  /** `all(key in rec for key in (PersonKey, ActivitiesKey))`, which stops at the
      first key found missing. */
  function HasBoth(rec: Node): (r: Result<bool>)
    ensures r.Err? <==> rec.Null?
    ensures r.Err? ==> r.error == TypeError
    ensures r.Ok? ==> (r.value <==> Contains(rec, PersonKey) == Ok(true) && Contains(rec, ActivitiesKey) == Ok(true))
    ensures rec.Dict? ==> (r == Ok(true) <==> PersonKey in Keys(rec.entries) && ActivitiesKey in Keys(rec.entries))
  {
    var p :- Contains(rec, PersonKey);
    if !p then Ok(false) else Contains(rec, ActivitiesKey)
  }

  /** `v[key]` with a string key: only a dict can be read that way. */
  function Subscript(v: Node, key: string): (r: Result<Node>)
    ensures r.Ok? <==> v.Dict? && key in Keys(v.entries)
    ensures r.Ok? ==> r.value == Get(v.entries, key)
    // The value is the one of the first entry holding the key.
    ensures r.Ok? ==>
      exists i :: 0 <= i < |v.entries| && v.entries[i] == (key, r.value) && key !in Keys(v.entries[..i])
    ensures r.Err? && v.Dict? ==> r.error == KeyError(key)
    ensures r.Err? && !v.Dict? ==> r.error == TypeError
  {
    match v
    case Dict(es) =>
      if key in Keys(es) then
        var i := IndexOf(es, key);
        assert key !in Keys(es[..i]) by {
          assert forall j :: 0 <= j < i ==> Keys(es[..i])[j] == es[j].0;
        }
        Ok(Get(es, key))
      else Err(KeyError(key))
    case _ => Err(TypeError)
  }

  /** `id` starts right after the first '/' of `path`, at position `i`, and runs
      to the next '/' or to the end. */
  predicate IdAt(path: string, id: string, i: int)
  {
    0 <= i < |path| && path[i] == '/' && '/' !in path[..i]
    && i + 1 + |id| <= |path| && path[i + 1..i + 1 + |id|] == id
    && (i + 1 + |id| == |path| || path[i + 1 + |id|] == '/')
  }

  /** `path.split('/')[1]`: the text between the first and the second '/'
      (or the end); a path without '/' has no second piece (IndexError). */
  function PathId(path: string): (r: Result<string>)
    ensures r.Ok? <==> '/' in path
    ensures r.Err? ==> r.error == IndexError
    ensures r.Ok? ==> '/' !in r.value && exists i :: IdAt(path, r.value, i)
  {
    var parts := Split(path, '/');
    if |parts| < 2 then Err(IndexError)
    else
      PathIdShape(path);
      Ok(parts[1])
  }

  lemma PathIdShape(path: string)
    requires '/' in path
    ensures IdAt(path, Split(path, '/')[1], |Split(path, '/')[0]|)
  {
    var parts := Split(path, '/');
    SplitSecond(path, '/');
    var i := |parts[0]|;
    var rest := if |parts| == 2 then [] else ['/'] + Join(parts[2..], '/');
    assert path == parts[0] + ['/'] + parts[1] + rest;
    assert path[..i] == parts[0];
    assert path[i + 1..i + 1 + |parts[1]|] == parts[1];
    assert parts[1] in parts;
  }

  /** `person['@path'].split('/')[1]`: a non-dict person cannot be read by key
      (TypeError), a missing `@path` is a KeyError, a non-text `@path` has no
      `split` (AttributeError). */
  function PersonId(person: Node): (r: Result<string>)
    ensures r.Ok? <==> person.Dict? && "@path" in Keys(person.entries)
                       && Get(person.entries, "@path").Str? && '/' in Get(person.entries, "@path").s
    ensures r.Ok? ==> var path := Get(person.entries, "@path").s;
                      '/' !in r.value && exists i :: IdAt(path, r.value, i)
    ensures !person.Dict? ==> r == Err(TypeError)
    ensures person.Dict? && "@path" !in Keys(person.entries) ==> r == Err(KeyError("@path"))
  {
    var path :- Subscript(person, "@path");
    match path
    case Str(s) => PathId(s)
    case _ => Err(AttributeError)
  }

  /** A value the top-level cleaner hands to the nested cleaner can be cleaned
      without a crash. */
  ghost predicate CleanableValue(v: Node)
  {
    v.Dict? ==> Cleanable(v.entries)
  }

  /** When the cleaner is reached (a dict wrapper holding both subtrees and a
      readable identifier), the two subtrees can be cleaned. */
  ghost predicate Normalisable(xml: seq<(string, Node)>)
  {
    Wrapper in Keys(xml) && Get(xml, Wrapper).Dict? ==>
      var rec := Get(xml, Wrapper).entries;
      PersonKey in Keys(rec) && ActivitiesKey in Keys(rec) && PersonId(Get(rec, PersonKey)).Ok? ==>
        CleanableValue(Get(rec, PersonKey)) && CleanableValue(Get(rec, ActivitiesKey))
  }

  /** The document the extractor returns for a person `person`, activities `acts`
      and identifier `id`. */
  function Document(id: string, person: Node, acts: Node): seq<(string, Node)>
  {
    [("_id", Str(id)), ("person", TopValue(person)), ("activities-summary", TopValue(acts))]
  }

  /** A dict of two renamed keys followed by a plain one, all three cleaning to
      distinct keys, can go through the top-level cleaner. */
  lemma CleanableThree(k1: string, v1: Node, k2: string, v2: Node, k3: string, v3: Node)
    requires Renames(k1) && Renames(k2) && !Renames(k3)
    requires CleanKey(k1) != CleanKey(k2) && CleanKey(k1) != k3 && CleanKey(k2) != k3
    requires CleanableValue(v1) && CleanableValue(v2) && !v3.Dict?
    ensures TopCleanable([(k1, v1), (k2, v2), (k3, v3)])
  {
    var es := [(k1, v1), (k2, v2), (k3, v3)];
    assert DistinctCleanKeys(es) by {
      assert CleanKeys(es) == [CleanKey(k1), CleanKey(k2), k3];
    }
    assert forall i :: 0 <= i < |es| && es[i].1.Dict? ==> Cleanable(es[i].1.entries) by {
      assert es[0].1 == v1 && es[1].1 == v2 && es[2].1 == v3;
    }
  }

  /** The two halves of a level of two renamed entries and a plain one that
      all survive. */
  lemma SurvivorsThree(e1: (string, Node), e2: (string, Node), e3: (string, Node), w1: Node, w2: Node, w3: Node)
    requires Renames(e1.0) && Renames(e2.0) && !Renames(e3.0)
    ensures Survivors([e1, e2, e3], [Some(w1), Some(w2), Some(w3)], false) == [(e3.0, w3)]
    ensures Survivors([e1, e2, e3], [Some(w1), Some(w2), Some(w3)], true)
         == [(CleanKey(e1.0), w1), (CleanKey(e2.0), w2)]
  {
    var es, outs := [e1, e2, e3], [Some(w1), Some(w2), Some(w3)];
    assert es[..2] == [e1, e2] && outs[..2] == [Some(w1), Some(w2)];
    assert [e1, e2][..1] == [e1] && [Some(w1), Some(w2)][..1] == [Some(w1)];
    assert [e1][..0] == [] && [Some(w1)][..0] == [];
    assert Survivors([e1], [Some(w1)], false) == [];
    assert Survivors([e1, e2], [Some(w1), Some(w2)], false) == [];
    assert Survivors([e1], [Some(w1)], true) == [(CleanKey(e1.0), w1)];
    assert Survivors([e1, e2], [Some(w1), Some(w2)], true) == [(CleanKey(e1.0), w1), (CleanKey(e2.0), w2)];
  }

  /** The top-level cleaner on such a dict: the plain entry ends up first. */
  lemma CleanThree(k1: string, v1: Node, k2: string, v2: Node, k3: string, v3: Node)
    requires Renames(k1) && Renames(k2) && !Renames(k3)
    ensures CleanTop([(k1, v1), (k2, v2), (k3, v3)])
         == [(k3, TopValue(v3)), (CleanKey(k1), TopValue(v1)), (CleanKey(k2), TopValue(v2))]
  {
    var e1, e2, e3 := (k1, v1), (k2, v2), (k3, v3);
    assert TopOutcomes([e1, e2, e3]) == [Some(TopValue(v1)), Some(TopValue(v2)), Some(TopValue(v3))];
    SurvivorsThree(e1, e2, e3, TopValue(v1), TopValue(v2), TopValue(v3));
  }

  lemma PersonKeyRenamed()
    ensures Renames(PersonKey) && CleanKey(PersonKey) == "person"
  {
    assert ':' !in "person";
    assert PersonKey == "person" + [':'] + "person";
    SingleColonRenamed("person", "person");
  }

  lemma ActivitiesKeyRenamed()
    ensures Renames(ActivitiesKey) && CleanKey(ActivitiesKey) == "activities-summary"
  {
    assert ':' !in "activities" && ':' !in "activities-summary";
    assert ActivitiesKey == "activities" + [':'] + "activities-summary";
    SingleColonRenamed("activities", "activities-summary");
  }

  /** The top-level cleaner on the dict the extractor builds: both subtree keys
      lose their namespace and move behind `_id`. */
  lemma CleanRecord(person: Node, acts: Node, id: string)
    ensures CleanTop([(PersonKey, person), (ActivitiesKey, acts), ("_id", Str(id))]) == Document(id, person, acts)
  {
    PersonKeyRenamed();
    ActivitiesKeyRenamed();
    IdKeyPlain();
    CleanThree(PersonKey, person, ActivitiesKey, acts, "_id", Str(id));
  }

  /** The dict the extractor builds can go through the top-level cleaner. */
  lemma RecordCleanable(person: Node, acts: Node, id: string)
    requires CleanableValue(person) && CleanableValue(acts)
    ensures TopCleanable([(PersonKey, person), (ActivitiesKey, acts), ("_id", Str(id))])
  {
    PersonKeyRenamed();
    ActivitiesKeyRenamed();
    IdKeyPlain();
    CleanableThree(PersonKey, person, ActivitiesKey, acts, "_id", Str(id));
  }

  lemma IdKeyPlain()
    ensures !Renames("_id") && CleanKey("_id") == "_id"
  {
    assert ':' !in "_id";
  }

  /** `extract_information_from_xml(xml)`: the empty dict for a document of the
      wrong shape, otherwise the cleaned document; Python's errors as `Err`. */
  method ExtractInformation(xml: seq<(string, Node)>) returns (r: Result<seq<(string, Node)>>)
    requires Normalisable(xml)
    // No wrapper: the empty dict.
    ensures Wrapper !in Keys(xml) ==> r == Ok([])
    // A dict wrapper: the empty dict exactly when a subtree is missing; otherwise
    // the three cleaned entries, or the error of reading the identifier.
    ensures Wrapper in Keys(xml) && Get(xml, Wrapper).Dict? ==>
      var rec := Get(xml, Wrapper).entries;
      && (r == Ok([]) <==> PersonKey !in Keys(rec) || ActivitiesKey !in Keys(rec))
      && (PersonKey in Keys(rec) && ActivitiesKey in Keys(rec) ==>
            var person := Get(rec, PersonKey);
            match PersonId(person)
            case Ok(id) => r == Ok(Document(id, person, Get(rec, ActivitiesKey)))
            case Err(e) => r == Err(e))
    // A wrapper of another kind: `in` on None fails; text or a list may hold
    // both names, and then cannot be read by key.
    ensures Wrapper in Keys(xml) && Get(xml, Wrapper).Null? ==> r == Err(TypeError)
    ensures Wrapper in Keys(xml) && (Get(xml, Wrapper).Str? || Get(xml, Wrapper).List?) ==>
      var rec := Get(xml, Wrapper);
      r == (if Contains(rec, PersonKey) == Ok(true) && Contains(rec, ActivitiesKey) == Ok(true)
            then Err(TypeError) else Ok([]))
  {
    if Wrapper !in Keys(xml) {
      return Ok([]);
    }
    var rec := Get(xml, Wrapper);
    var both :- HasBoth(rec);
    if !both {
      return Ok([]);
    }
    var person :- Subscript(rec, PersonKey);
    var acts := Subscript(rec, ActivitiesKey).value;
    var id :- PersonId(person);
    var cleaned := BuildDocument(person, acts, id);
    return Ok(cleaned);
  }

  /** The tail of the extractor: the dict of the two subtrees, `_id` added, and
      the top-level cleaner run on it. */
  method BuildDocument(person: Node, acts: Node, id: string) returns (cleaned: seq<(string, Node)>)
    requires CleanableValue(person) && CleanableValue(acts)
    ensures cleaned == Document(id, person, acts)
  {
    var data := [(PersonKey, person), (ActivitiesKey, acts)];
    assert "_id" !in Keys(data);
    AssignFresh(data, "_id", Str(id));
    data := Assign(data, "_id", Str(id));
    assert data == [(PersonKey, person), (ActivitiesKey, acts), ("_id", Str(id))];
    RecordCleanable(person, acts, id);
    CleanRecord(person, acts, id);
    cleaned := CleanDictNames(data);
  }

  /** Conversely, the text after the first '/' of a path, up to the next '/' or
      the end, is what `PathId` returns. */
  lemma PathIdOf(pre: string, id: string, rest: string)
    requires '/' !in pre && '/' !in id && (rest == [] || rest[0] == '/')
    ensures PathId(pre + ['/'] + id + rest) == Ok(id)
  {
    SecondPiece(pre, id, rest, '/');
  }

  /** The identifier read from a typical ORCID `@path`. */
  lemma ExampleId()
    ensures PathId("/0000-0001-2345-6789/person") == Ok("0000-0001-2345-6789")
  {
    var id := "0000-0001-2345-6789";
    assert '/' !in id;
    assert "/0000-0001-2345-6789/person" == "" + ['/'] + id + "/person";
    PathIdOf("", id, "/person");
  }
}
