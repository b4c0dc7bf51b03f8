/** The field-name normaliser: `recursive_clean_function` (one nested level and
    everything below it) and `clean_dict_names` (the top-level pass).

    Per key of a snapshot of the dict's keys, in order, the nested cleaner
      1. renames a key holding exactly one ':' to the text after the colon (the
         renamed entry moves to the end of the dict, as a Python assignment of a
         new key does);
      2. deletes the entry when the cleaned key starts with '@';
      3. deletes a dict value whose own keys all start with '@' (an empty dict
         included), and otherwise cleans it;
      4. replaces a list value by a dict keyed "0".."n-1" and cleans that dict;
    text and empty values are left as they are. The top-level pass only renames
    and cleans dict values.

    The specification functions below give the resulting dict as a value:
    entries that keep their key stay where they were, renamed entries follow in
    visiting order. The methods are the loops of the source, proved equal to them. */
module Normaliser {
  import opened Tree
  import opened Text

  /** The key holds exactly one namespace separator. */
  predicate Renames(k: string)
  {
    Count(k, ':') == 1
  }

  /** The key after namespace stripping (`k.split(':')[1]` when `k.count(':') == 1`). */
  function CleanKey(k: string): (r: string)
    ensures Count(r, ':') != 1
    ensures Renames(k) ==> ':' !in r
    ensures !Renames(k) ==> r == k
  {
    if Renames(k) then Split(k, ':')[1] else k
  }

  /** The key marks metadata (`k.startswith('@')`). */
  predicate IsMeta(k: string)
  {
    |k| > 0 && k[0] == '@'
  }

  /** Every key of the dict marks metadata (true of the empty dict). */
  predicate AllMeta(es: seq<(string, Node)>)
  {
    forall i :: 0 <= i < |es| ==> IsMeta(es[i].0)
  }

  /** The cleaned keys of one level, in order. */
  function CleanKeys(es: seq<(string, Node)>): (ks: seq<string>)
    ensures |ks| == |es|
    ensures forall i :: 0 <= i < |es| ==> ks[i] == CleanKey(es[i].0)
  {
    seq(|es|, i requires 0 <= i < |es| => CleanKey(es[i].0))
  }

  /** No two keys of the level clean to the same key (Python would overwrite one
      entry with another, or raise KeyError). */
  predicate DistinctCleanKeys(es: seq<(string, Node)>)
  {
    forall i, j :: 0 <= i < j < |es| ==> CleanKey(es[i].0) != CleanKey(es[j].0)
  }

  /** No key cleans to "" (Python raises IndexError on `key_one_clean[0]`). */
  predicate NonEmptyCleanKeys(es: seq<(string, Node)>)
  {
    forall i :: 0 <= i < |es| ==> CleanKey(es[i].0) != ""
  }

  // ---------------------------------------------------------------------------
  // A size in which a list weighs more than the dict that replaces it.

  function Size(n: Node): (z: nat)
    ensures z >= 1
  {
    match n
    case Dict(es) => 1 + EntriesSize(es)
    case List(xs) => 2 + ItemsSize(xs)
    case _ => 1
  }

  function EntrySize(e: (string, Node)): nat
  {
    Size(e.1)
  }

  function EntriesSize(es: seq<(string, Node)>): nat
  {
    if es == [] then 0 else EntriesSize(es[..|es| - 1]) + EntrySize(es[|es| - 1])
  }

  function ItemsSize(xs: seq<Node>): nat
  {
    if xs == [] then 0 else ItemsSize(xs[..|xs| - 1]) + Size(xs[|xs| - 1])
  }

  lemma {:induction false} EntrySizeBound(es: seq<(string, Node)>, i: nat)
    requires i < |es|
    ensures Size(es[i].1) <= EntriesSize(es)
  {
    if i < |es| - 1 {
      EntrySizeBound(es[..|es| - 1], i);
    }
  }

  /** `{str(i): xs[i] for i in range(len(xs))}`: the dict that replaces a list. */
  function Indexed(xs: seq<Node>): (es: seq<(string, Node)>)
    ensures |es| == |xs|
    ensures forall i :: 0 <= i < |xs| ==> es[i] == (NatToString(i), xs[i])
    // Each key reads back as its position, so no two keys are the same.
    ensures forall i :: 0 <= i < |xs| ==> ParseNat(es[i].0) == i && es[i].1 == xs[i]
    ensures UniqueKeys(es)
  {
    ParseNatToStringBelow(|xs|);
    seq(|xs|, i requires 0 <= i < |xs| => (NatToString(i), xs[i]))
  }

  lemma {:induction false} IndexedSize(xs: seq<Node>)
    ensures EntriesSize(Indexed(xs)) == ItemsSize(xs)
  {
    SizesMatch(Indexed(xs), xs);
  }

  /** Entries whose values are the items, in order, weigh what the items weigh. */
  lemma {:induction false} SizesMatch(es: seq<(string, Node)>, xs: seq<Node>)
    requires |es| == |xs| && forall i :: 0 <= i < |xs| ==> es[i].1 == xs[i]
    ensures EntriesSize(es) == ItemsSize(xs)
  {
    if xs != [] {
      var n := |xs|;
      SizesMatch(es[..n - 1], xs[..n - 1]);
    }
  }

  /** The keys of the converted list are "0".."n-1": plain, distinct, not metadata. */
  lemma IndexedKeys(xs: seq<Node>)
    ensures Keys(Indexed(xs)) == seq(|xs|, i requires 0 <= i < |xs| => NatToString(i))
    ensures DistinctCleanKeys(Indexed(xs)) && NonEmptyCleanKeys(Indexed(xs))
    ensures forall i :: 0 <= i < |xs| ==> !Renames(NatToString(i)) && !IsMeta(NatToString(i))
  {
    forall i | 0 <= i < |xs|
      ensures !Renames(NatToString(i)) && !IsMeta(NatToString(i))
    {
      var s := NatToString(i);
      assert ':' !in s by {
        forall m | 0 <= m < |s| ensures s[m] != ':' { }
      }
    }
    forall i, j | 0 <= i < j < |xs|
      ensures CleanKey(Indexed(xs)[i].0) != CleanKey(Indexed(xs)[j].0)
    {
      NatToStringInjective(i, j);
    }
  }

  // ---------------------------------------------------------------------------
  // What cleaning makes of one level.

  /** What happens to a value held under a key that is not metadata: `None` when
      the entry is deleted, otherwise the cleaned value. */
  function CleanChild(v: Node): Option<Node>
    decreases Size(v), 0
  {
    match v
    case Dict(es) => if AllMeta(es) then None else Some(Dict(CleanEntries(es)))
    case List(xs) =>
      IndexedSize(xs);
      Some(Dict(CleanEntries(Indexed(xs))))
    case _ => Some(v)
  }

  /** What happens to one entry of a nested level. */
  function Outcome(e: (string, Node)): Option<Node>
    decreases Size(e.1), 1
  {
    if IsMeta(CleanKey(e.0)) then None else CleanChild(e.1)
  }

  function Outcomes(es: seq<(string, Node)>): (outs: seq<Option<Node>>)
    ensures |outs| == |es|
    decreases EntriesSize(es), 2
  {
    if es == [] then []
    else
      var n := |es|;
      EntriesSizeLast(es);
      Outcomes(es[..n - 1]) + [Outcome(es[n - 1])]
  }

  lemma {:induction false} OutcomesAt(es: seq<(string, Node)>, i: nat)
    requires i < |es|
    ensures Outcomes(es)[i] == Outcome(es[i])
  {
    if i < |es| - 1 {
      OutcomesAt(es[..|es| - 1], i);
    }
  }

  /** The surviving entries whose key is renamed (`renamed`) or not (`!renamed`),
      under their cleaned keys, in visiting order. Entries that keep their key
      keep their place; renamed entries end up after them. */
  function Survivors(es: seq<(string, Node)>, outs: seq<Option<Node>>, renamed: bool): seq<(string, Node)>
    requires |outs| == |es|
  {
    if es == [] then []
    else
      var n := |es|;
      Survivors(es[..n - 1], outs[..n - 1], renamed)
        + (if Renames(es[n - 1].0) == renamed && outs[n - 1].Some?
           then [(CleanKey(es[n - 1].0), outs[n - 1].value)] else [])
  }

  /** The dict `recursive_clean_function` leaves behind. */
  function CleanEntries(es: seq<(string, Node)>): seq<(string, Node)>
    decreases EntriesSize(es), 3
  {
    Survivors(es, Outcomes(es), false) + Survivors(es, Outcomes(es), true)
  }

  /** The value `clean_dict_names` leaves under a top-level key. */
  function TopValue(v: Node): Node
  {
    match v
    case Dict(es) => Dict(CleanEntries(es))
    case _ => v
  }

  function TopOutcomes(es: seq<(string, Node)>): (outs: seq<Option<Node>>)
    ensures |outs| == |es|
  {
    seq(|es|, i requires 0 <= i < |es| => Some(TopValue(es[i].1)))
  }

  /** The dict `clean_dict_names` leaves behind. */
  function CleanTop(es: seq<(string, Node)>): seq<(string, Node)>
  {
    Survivors(es, TopOutcomes(es), false) + Survivors(es, TopOutcomes(es), true)
  }

  // ---------------------------------------------------------------------------
  // When the source's cleaner does not crash: every level it visits has
  // non-empty, pairwise distinct cleaned keys.

  ghost predicate Cleanable(es: seq<(string, Node)>)
    decreases EntriesSize(es), 3
  {
    DistinctCleanKeys(es) && NonEmptyCleanKeys(es) && ChildrenCleanable(es)
  }

  ghost predicate ChildrenCleanable(es: seq<(string, Node)>)
    decreases EntriesSize(es), 2
  {
    if es == [] then true
    else
      var n := |es|;
      EntriesSizeLast(es);
      ChildrenCleanable(es[..n - 1])
        && (IsMeta(CleanKey(es[n - 1].0)) || ChildCleanable(es[n - 1].1))
  }

  ghost predicate ChildCleanable(v: Node)
    decreases Size(v), 1
  {
    match v
    case Dict(es) => AllMeta(es) || Cleanable(es)
    case List(xs) =>
      IndexedSize(xs);
      Cleanable(Indexed(xs))
    case _ => true
  }

  /** The top-level pass does not crash: distinct cleaned keys, and every dict
      value can be cleaned. */
  ghost predicate TopCleanable(es: seq<(string, Node)>)
  {
    DistinctCleanKeys(es)
    && forall i :: 0 <= i < |es| && es[i].1.Dict? ==> Cleanable(es[i].1.entries)
  }

  lemma {:induction false} ChildrenCleanableAt(es: seq<(string, Node)>, i: nat)
    requires ChildrenCleanable(es) && i < |es| && !IsMeta(CleanKey(es[i].0))
    ensures ChildCleanable(es[i].1)
  {
    if i < |es| - 1 {
      ChildrenCleanableAt(es[..|es| - 1], i);
    }
  }

  // ---------------------------------------------------------------------------
  // Keys of the two halves of a cleaned level.

  /** Every key of a cleaned level is the cleaned key of some entry. */
  lemma {:induction false} SurvivorKeys(es: seq<(string, Node)>, outs: seq<Option<Node>>, renamed: bool)
    requires |outs| == |es|
    ensures forall x :: x in Keys(Survivors(es, outs, renamed)) ==> x in CleanKeys(es)
  {
    if es != [] {
      var n := |es|;
      var p, o := es[..n - 1], outs[..n - 1];
      SurvivorKeys(p, o, renamed);
      SurvivorsLast(es, outs, renamed);
      CleanKeysLast(es);
      KeysWithin(Survivors(p, o, renamed), CleanKeys(p), CleanKey(es[n - 1].0),
                 if Renames(es[n - 1].0) == renamed then outs[n - 1] else None);
    }
  }

  /** A half of a level is the half of all but its last entry, then the last
      entry's piece. */
  lemma SurvivorsLast(es: seq<(string, Node)>, outs: seq<Option<Node>>, renamed: bool)
    requires es != [] && |outs| == |es|
    ensures var n := |es|;
      Survivors(es, outs, renamed)
      == Survivors(es[..n - 1], outs[..n - 1], renamed)
         + Piece(CleanKey(es[n - 1].0), if Renames(es[n - 1].0) == renamed then outs[n - 1] else None)
  {
  }

  lemma CleanKeysLast(es: seq<(string, Node)>)
    requires es != []
    ensures CleanKeys(es) == CleanKeys(es[..|es| - 1]) + [CleanKey(es[|es| - 1].0)]
  {
  }

  lemma KeptLast(es: seq<(string, Node)>, outs: seq<Option<Node>>, renamed: bool)
    requires es != [] && |outs| == |es|
    ensures var n := |es|;
      Kept(es, outs, renamed) == Kept(es[..n - 1], outs[..n - 1], renamed) + [Renames(es[n - 1].0) == renamed && outs[n - 1].Some?]
  {
  }

  lemma SeqLast<T>(s: seq<T>)
    requires s != []
    ensures s == s[..|s| - 1] + [s[|s| - 1]]
  {
  }

  /** Appending the piece of `k` adds at most the key `k`. */
  lemma KeysWithin(S: seq<(string, Node)>, ks: seq<string>, k: string, l: Option<Node>)
    requires forall x :: x in Keys(S) ==> x in ks
    ensures forall x :: x in Keys(S + Piece(k, l)) ==> x in ks + [k]
  {
    KeysConcat(S, Piece(k, l));
    assert l.Some? ==> Keys(Piece(k, l)) == [k];
  }

  /** A cleaned key of entry `i` is none of the cleaned keys before it. */
  lemma FreshCleanKey(es: seq<(string, Node)>, i: nat)
    requires DistinctCleanKeys(es) && i < |es|
    ensures CleanKey(es[i].0) !in CleanKeys(es[..i])
  {
    forall m | 0 <= m < i ensures CleanKeys(es[..i])[m] != CleanKey(es[i].0) {
      assert CleanKeys(es[..i])[m] == CleanKey(es[m].0);
    }
  }

  lemma EntriesSizeLast(es: seq<(string, Node)>)
    requires es != []
    ensures EntriesSize(es) == EntriesSize(es[..|es| - 1]) + Size(es[|es| - 1].1)
  {
  }

  // ---------------------------------------------------------------------------
  // The state of the dict after the loop has visited `i` keys.

  /** The entry a visit leaves in the slot of the cleaned key `clean`. */
  function Piece(clean: string, o: Option<Node>): seq<(string, Node)>
  {
    if o.Some? then [(clean, o.value)] else []
  }

  ghost function Progress(es: seq<(string, Node)>, outs: seq<Option<Node>>, i: nat): seq<(string, Node)>
    requires |outs| == |es| && i <= |es|
  {
    Survivors(es[..i], outs[..i], false) + es[i..] + Survivors(es[..i], outs[..i], true)
  }

  /** The entries in front of the slot that entry `i` occupies once its key is
      cleaned (a renamed entry has moved to the end). */
  ghost function Before(es: seq<(string, Node)>, outs: seq<Option<Node>>, i: nat): seq<(string, Node)>
    requires |outs| == |es| && i < |es|
  {
    if Renames(es[i].0) then Survivors(es[..i], outs[..i], false) + es[i + 1..] + Survivors(es[..i], outs[..i], true)
    else Survivors(es[..i], outs[..i], false)
  }

  ghost function After(es: seq<(string, Node)>, outs: seq<Option<Node>>, i: nat): seq<(string, Node)>
    requires |outs| == |es| && i < |es|
  {
    if Renames(es[i].0) then [] else es[i + 1..] + Survivors(es[..i], outs[..i], true)
  }

  /** Where the keys of entry `i` are when the loop reaches it: its cleaned key
      is in none of the other parts, and a renamed old key is in no cleaned part. */
  lemma VisitKeys(es: seq<(string, Node)>, outs: seq<Option<Node>>, i: nat)
    requires |outs| == |es| && i < |es| && DistinctCleanKeys(es)
    ensures var k, ck := es[i].0, CleanKey(es[i].0);
      && ck !in Keys(Survivors(es[..i], outs[..i], false))
      && ck !in Keys(Survivors(es[..i], outs[..i], true))
      && ck !in Keys(es[i + 1..])
      && (Renames(k) ==>
            ck != k && k !in Keys(Survivors(es[..i], outs[..i], false)) && k !in Keys(Survivors(es[..i], outs[..i], true)))
  {
    var k, ck := es[i].0, CleanKey(es[i].0);
    var p, o := es[..i], outs[..i];
    SurvivorKeys(p, o, false);
    SurvivorKeys(p, o, true);
    FreshCleanKey(es, i);
    assert CleanKey(ck) == ck by {
      if Renames(k) { assert ':' !in ck; }
    }
    var B := es[i + 1..];
    forall m | 0 <= m < |B| ensures Keys(B)[m] != ck {
      assert B[m] == es[i + 1 + m];
      assert CleanKey(es[i + 1 + m].0) != CleanKey(ck);
    }
    if Renames(k) {
      forall x | x in CleanKeys(p) ensures x != k {
        var j :| 0 <= j < |p| && CleanKeys(p)[j] == x;
        assert Count(CleanKey(p[j].0), ':') != 1;
      }
    }
  }

  /** What the visit of entry `i` leaves in the slot gives the state for `i + 1`. */
  lemma VisitNext(es: seq<(string, Node)>, outs: seq<Option<Node>>, i: nat)
    requires |outs| == |es| && i < |es|
    ensures Progress(es, outs, i + 1)
         == Before(es, outs, i)
            + Piece(CleanKey(es[i].0), outs[i])
            + After(es, outs, i)
  {
    var ck := CleanKey(es[i].0);
    var S, M, B := Survivors(es[..i], outs[..i], false), Survivors(es[..i], outs[..i], true), es[i + 1..];
    SurvivorsNext(es, outs, i, false);
    SurvivorsNext(es, outs, i, true);
    if Renames(es[i].0) {
      Arrange(S, [], B, M, Piece(ck, outs[i]));
    } else {
      Arrange(S, Piece(ck, outs[i]), B, M, []);
    }
  }

  /** The half of the first `i + 1` entries from the half of the first `i`. */
  lemma SurvivorsNext(es: seq<(string, Node)>, outs: seq<Option<Node>>, i: nat, renamed: bool)
    requires |outs| == |es| && i < |es|
    ensures Survivors(es[..i + 1], outs[..i + 1], renamed)
         == Survivors(es[..i], outs[..i], renamed)
            + Piece(CleanKey(es[i].0), if Renames(es[i].0) == renamed then outs[i] else None)
  {
    assert es[..i + 1][..i] == es[..i] && outs[..i + 1][..i] == outs[..i];
    assert es[..i + 1][i] == es[i] && outs[..i + 1][i] == outs[i];
  }

  lemma Arrange(S: seq<(string, Node)>, P: seq<(string, Node)>, B: seq<(string, Node)>, M: seq<(string, Node)>, Q: seq<(string, Node)>)
    ensures P == [] ==> (S + P) + B + (M + Q) == (S + B + M) + Q + []
    ensures Q == [] ==> (S + P) + B + (M + Q) == S + P + (B + M)
  {
  }

  /** Visiting a plain key finds it in its slot. */
  lemma VisitPlain(es: seq<(string, Node)>, outs: seq<Option<Node>>, i: nat)
    requires |outs| == |es| && i < |es| && !Renames(es[i].0)
    ensures Progress(es, outs, i) == Before(es, outs, i) + [(es[i].0, es[i].1)] + After(es, outs, i)
  {
    var S, M, B := Survivors(es[..i], outs[..i], false), Survivors(es[..i], outs[..i], true), es[i + 1..];
    assert es[i..] == [es[i]] + B;
    Regroup(S, es[i], B, M, es[i]);
  }

  /** Visiting a renamed key copies its value to the new key, which is absent
      and so appended, then deletes the old key. */
  lemma VisitRenamed(es: seq<(string, Node)>, outs: seq<Option<Node>>, i: nat)
    requires |outs| == |es| && i < |es| && DistinctCleanKeys(es) && Renames(es[i].0)
    ensures var d, k, ck, v := Progress(es, outs, i), es[i].0, CleanKey(es[i].0), es[i].1;
      && k in Keys(d) && Get(d, k) == v
      && k in Keys(Assign(d, ck, v))
      && Delete(Assign(d, ck, v), k) == Before(es, outs, i) + [(ck, v)] + After(es, outs, i)
  {
    var k, ck := es[i].0, CleanKey(es[i].0);
    var S, M, B := Survivors(es[..i], outs[..i], false), Survivors(es[..i], outs[..i], true), es[i + 1..];
    assert k !in Keys(S) && ck != k && ck !in Keys(S) && ck !in Keys(B) && ck !in Keys(M) by {
      VisitKeys(es, outs, i);
    }
    assert Progress(es, outs, i) == S + ([es[i]] + B) + M by {
      assert es[i..] == [es[i]] + B;
    }
    RenameMoves(S, es[i], B, M, ck);
  }

  /** Renaming the entry `e` in `S + [e] + (B + M)` to a key found nowhere
      else moves it to the end. */
  lemma RenameMoves(S: seq<(string, Node)>, e: (string, Node), B: seq<(string, Node)>, M: seq<(string, Node)>, ck: string)
    requires e.0 !in Keys(S) && ck != e.0 && ck !in Keys(S) && ck !in Keys(B) && ck !in Keys(M)
    ensures var d := S + ([e] + B) + M;
      && e.0 in Keys(d) && Get(d, e.0) == e.1
      && e.0 in Keys(Assign(d, ck, e.1))
      && Delete(Assign(d, ck, e.1), e.0) == (S + B + M) + [(ck, e.1)] + []
  {
    KeysConcat(B, M);
    RenameEntry(S, e, B + M, ck);
    Regroup(S, e, B, M, (ck, e.1));
  }

  lemma Regroup(S: seq<(string, Node)>, e: (string, Node), B: seq<(string, Node)>, M: seq<(string, Node)>, x: (string, Node))
    ensures S + ([e] + B) + M == S + [e] + (B + M)
    ensures S + (B + M) + [x] == (S + B + M) + [x] + []
  {
  }

  /** The cleaned key is absent from the entries in front of its slot. */
  lemma VisitFresh(es: seq<(string, Node)>, outs: seq<Option<Node>>, i: nat)
    requires |outs| == |es| && i < |es| && DistinctCleanKeys(es)
    ensures CleanKey(es[i].0) !in Keys(Before(es, outs, i))
  {
    VisitKeys(es, outs, i);
    var S, M, B := Survivors(es[..i], outs[..i], false), Survivors(es[..i], outs[..i], true), es[i + 1..];
    KeysConcat(S, B);
    KeysConcat(S + B, M);
  }

  /** The state after the loop of `recursive_clean_function` is its result. */
  lemma LevelDone(es: seq<(string, Node)>)
    ensures Progress(es, Outcomes(es), |es|) == CleanEntries(es)
  {
    ProgressDone(es, Outcomes(es));
  }

  /** The state after the loop of `clean_dict_names` is its result. */
  lemma TopDone(es: seq<(string, Node)>)
    ensures Progress(es, TopOutcomes(es), |es|) == CleanTop(es)
  {
    ProgressDone(es, TopOutcomes(es));
  }

  /** Before the loop, the state is the dict itself. */
  lemma ProgressStart(es: seq<(string, Node)>, outs: seq<Option<Node>>)
    requires |outs| == |es|
    ensures Progress(es, outs, 0) == es
  {
    assert es[..0] == [] && outs[..0] == [] && es[0..] == es;
  }

  lemma ProgressDone(es: seq<(string, Node)>, outs: seq<Option<Node>>)
    requires |outs| == |es|
    ensures Progress(es, outs, |es|) == Survivors(es, outs, false) + Survivors(es, outs, true)
  {
    assert es[..|es|] == es && outs[..|outs|] == outs;
  }

  // ---------------------------------------------------------------------------
  // What a cleaned level holds.

  /** The entry `e` is what entry `j` of the level becomes when it survives. */
  predicate From(es: seq<(string, Node)>, outs: seq<Option<Node>>, e: (string, Node), j: int)
  {
    0 <= j < |es| && j < |outs| && outs[j].Some? && e == (CleanKey(es[j].0), outs[j].value)
  }

  /** The entry `e` is what some entry of the level becomes. */
  ghost predicate FromLevel(es: seq<(string, Node)>, outs: seq<Option<Node>>, e: (string, Node))
  {
    exists j :: From(es, outs, e, j)
  }

  /** Each entry of a half of a cleaned level comes from an entry that survives,
      under that entry's cleaned key. */
  lemma {:induction false} SurvivorEntries(es: seq<(string, Node)>, outs: seq<Option<Node>>, renamed: bool)
    requires |outs| == |es|
    ensures forall m :: 0 <= m < |Survivors(es, outs, renamed)| ==>
      FromLevel(es, outs, Survivors(es, outs, renamed)[m])
  {
    if es != [] {
      var n := |es|;
      var p, o := es[..n - 1], outs[..n - 1];
      SurvivorEntries(p, o, renamed);
      var S := Survivors(p, o, renamed);
      var T := Survivors(es, outs, renamed);
      assert T == S + Piece(CleanKey(es[n - 1].0), if Renames(es[n - 1].0) == renamed then outs[n - 1] else None);
      forall m | 0 <= m < |T| ensures FromLevel(es, outs, T[m]) {
        if m < |S| {
          assert FromLevel(p, o, S[m]);
          var j :| From(p, o, S[m], j);
          assert p[j] == es[j] && o[j] == outs[j];
          assert From(es, outs, T[m], j);
        } else {
          assert From(es, outs, T[m], n - 1);
        }
      }
    }
  }

  /** Appending the piece of a key absent from a dict with unique keys: the keys
      stay unique, reading another key is unaffected, and the key is present
      exactly when the piece holds a value. */
  lemma AppendPiece(d: seq<(string, Node)>, k: string, o: Option<Node>, x: string)
    requires UniqueKeys(d) && k !in Keys(d)
    ensures UniqueKeys(d + Piece(k, o))
    ensures x != k ==> (x in Keys(d + Piece(k, o)) <==> x in Keys(d))
    ensures x != k && x in Keys(d) ==> Get(d + Piece(k, o), x) == Get(d, x)
    ensures k in Keys(d + Piece(k, o)) <==> o.Some?
    ensures o.Some? ==> k in Keys(d + Piece(k, o)) && Get(d + Piece(k, o), k) == o.value
  {
    var q := Piece(k, o);
    KeysConcat(d, q);
    if o.Some? {
      UniqueAppend(d, (k, o.value));
      assert Keys(q) == [k];
      GetConcat(d, q, k);
    } else {
      assert d + q == d;
    }
    if x != k && x in Keys(d) {
      GetConcat(d, q, x);
    }
  }

  /** Under distinct cleaned keys, each half of a cleaned level has unique keys,
      and the cleaned key of entry `j` is in it exactly when the entry survives
      in that half, holding the entry's outcome. */
  lemma SurvivorsSpec(es: seq<(string, Node)>, outs: seq<Option<Node>>, renamed: bool)
    requires |outs| == |es| && DistinctCleanKeys(es)
    ensures HalfSpec(es, outs, renamed)
  {
    SurvivorsHalf(es, outs, renamed);
  }

  /** What `SurvivorsSpec` states of one half. */
  predicate HalfSpec(es: seq<(string, Node)>, outs: seq<Option<Node>>, renamed: bool)
    requires |outs| == |es|
  {
    var S := Survivors(es, outs, renamed);
    && UniqueKeys(S)
    && (forall j :: 0 <= j < |es| ==>
         (CleanKey(es[j].0) in Keys(S) <==> Renames(es[j].0) == renamed && outs[j].Some?))
    && (forall j :: 0 <= j < |es| && Renames(es[j].0) == renamed && outs[j].Some? ==>
         CleanKey(es[j].0) in Keys(S) && Get(S, CleanKey(es[j].0)) == outs[j].value)
  }

  /** Whether entry `j` survives in the half `renamed`, entry by entry. */
  function Kept(es: seq<(string, Node)>, outs: seq<Option<Node>>, renamed: bool): (cs: seq<bool>)
    requires |outs| == |es|
    ensures |cs| == |es|
    ensures forall j :: 0 <= j < |es| ==> cs[j] == (Renames(es[j].0) == renamed && outs[j].Some?)
  {
    seq(|es|, j requires 0 <= j < |es| => Renames(es[j].0) == renamed && outs[j].Some?)
  }

  /** The dict `S` holds exactly the keys `ks[j]` with `cs[j]`, each with the
      value of `vs[j]`, and its keys are unique. */
  predicate Holding(S: seq<(string, Node)>, ks: seq<string>, cs: seq<bool>, vs: seq<Option<Node>>)
  {
    && UniqueKeys(S) && |cs| == |ks| && |vs| == |ks|
    && (forall j :: 0 <= j < |ks| ==> (ks[j] in Keys(S) <==> cs[j]))
    && (forall j :: 0 <= j < |ks| && cs[j] ==> vs[j].Some? && ks[j] in Keys(S) && Get(S, ks[j]) == vs[j].value)
  }

  lemma {:induction false} SurvivorsHalf(es: seq<(string, Node)>, outs: seq<Option<Node>>, renamed: bool)
    requires |outs| == |es| && DistinctCleanKeys(es)
    ensures Holding(Survivors(es, outs, renamed), CleanKeys(es), Kept(es, outs, renamed), outs)
  {
    if es != [] {
      var n := |es|;
      DistinctPrefix(es, n - 1);
      SurvivorsHalf(es[..n - 1], outs[..n - 1], renamed);
      HalfStep(es, outs, renamed);
    }
  }

  /** The half of a level from the half of all but its last entry. */
  lemma HalfStep(es: seq<(string, Node)>, outs: seq<Option<Node>>, renamed: bool)
    requires es != [] && |outs| == |es| && DistinctCleanKeys(es)
    requires var n := |es|;
      Holding(Survivors(es[..n - 1], outs[..n - 1], renamed), CleanKeys(es[..n - 1]), Kept(es[..n - 1], outs[..n - 1], renamed), outs[..n - 1])
    ensures Holding(Survivors(es, outs, renamed), CleanKeys(es), Kept(es, outs, renamed), outs)
  {
    var n := |es|;
    var p, o := es[..n - 1], outs[..n - 1];
    var l := if Renames(es[n - 1].0) == renamed then outs[n - 1] else None;
    SurvivorKeys(p, o, renamed);
    FreshCleanKey(es, n - 1);
    SurvivorsLast(es, outs, renamed);
    CleanKeysLast(es);
    KeptLast(es, outs, renamed);
    SeqLast(outs);
    HoldingSnoc(Survivors(p, o, renamed), CleanKeys(p), Kept(p, o, renamed), o, CleanKey(es[n - 1].0),
                Renames(es[n - 1].0) == renamed && outs[n - 1].Some?, outs[n - 1], l,
                Survivors(es, outs, renamed), CleanKeys(es), Kept(es, outs, renamed), outs);
  }

  lemma DistinctPrefix(es: seq<(string, Node)>, m: nat)
    requires m <= |es| && DistinctCleanKeys(es)
    ensures DistinctCleanKeys(es[..m])
  {
    var p := es[..m];
    forall i, j | 0 <= i < j < |p| ensures CleanKey(p[i].0) != CleanKey(p[j].0) {
      assert p[i] == es[i] && p[j] == es[j];
    }
  }

  /** Appending the piece of a new key `k` to a dict holds one more key. */
  lemma HoldingSnoc(S: seq<(string, Node)>, ks: seq<string>, cs: seq<bool>, vs: seq<Option<Node>>,
                    k: string, c: bool, v: Option<Node>, l: Option<Node>,
                    S': seq<(string, Node)>, ks': seq<string>, cs': seq<bool>, vs': seq<Option<Node>>)
    requires Holding(S, ks, cs, vs) && k !in ks && k !in Keys(S)
    requires (c <==> l.Some?) && (c ==> l == v)
    requires S' == S + Piece(k, l) && ks' == ks + [k] && cs' == cs + [c] && vs' == vs + [v]
    ensures Holding(S', ks', cs', vs')
  {
    AppendPiece(S, k, l, k);
    forall j | 0 <= j < |ks|
      ensures ks[j] in Keys(S + Piece(k, l)) <==> cs[j]
      ensures cs[j] ==> vs[j].Some? && ks[j] in Keys(S + Piece(k, l)) && Get(S + Piece(k, l), ks[j]) == vs[j].value
    {
      assert ks[j] != k;
      AppendPiece(S, k, l, ks[j]);
    }
    assert (ks + [k])[|ks|] == k && (cs + [c])[|ks|] == c && (vs + [v])[|ks|] == v;
  }

  /** A whole cleaned level: unique keys, each a cleaned key of the level, and
      the cleaned key of entry `j` is present exactly when the entry survives,
      holding its outcome. */
  lemma LevelSpec(es: seq<(string, Node)>, outs: seq<Option<Node>>)
    requires |outs| == |es| && DistinctCleanKeys(es)
    ensures var r := Survivors(es, outs, false) + Survivors(es, outs, true);
      && UniqueKeys(r)
      && (forall x :: x in Keys(r) ==> x in CleanKeys(es))
      && (forall j :: 0 <= j < |es| ==> (CleanKey(es[j].0) in Keys(r) <==> outs[j].Some?))
      && (forall j :: 0 <= j < |es| && outs[j].Some? ==>
            CleanKey(es[j].0) in Keys(r) && Get(r, CleanKey(es[j].0)) == outs[j].value)
  {
    var S, M := Survivors(es, outs, false), Survivors(es, outs, true);
    SurvivorsSpec(es, outs, false);
    SurvivorsSpec(es, outs, true);
    SurvivorKeys(es, outs, false);
    SurvivorKeys(es, outs, true);
    KeysConcat(S, M);
    forall i, j | 0 <= i < j < |S + M| ensures (S + M)[i].0 != (S + M)[j].0 {
      if i < |S| && |S| <= j {
        var x := S[i].0;
        assert Keys(S)[i] == x;
        assert x in CleanKeys(es);
        var a :| 0 <= a < |es| && CleanKeys(es)[a] == x;
        assert (S + M)[j] == M[j - |S|] && Keys(M)[j - |S|] == M[j - |S|].0;
      }
    }
    forall j | 0 <= j < |es| && outs[j].Some?
      ensures CleanKey(es[j].0) in Keys(S + M) && Get(S + M, CleanKey(es[j].0)) == outs[j].value
    {
      GetConcat(S, M, CleanKey(es[j].0));
    }
  }

  /** `recursive_clean_function` on a level with distinct cleaned keys: the keys
      left are unique, none is metadata and none holds exactly one ':'; an entry
      whose cleaned key is metadata, or whose value is an all-metadata dict, is
      gone; every other entry is found under its cleaned key with its cleaned
      value (a nested dict cleaned, a list converted to a dict keyed by position
      and cleaned, text and empty values unchanged). */
  lemma CleanEntriesSpec(es: seq<(string, Node)>)
    requires DistinctCleanKeys(es)
    ensures var r := CleanEntries(es);
      && UniqueKeys(r)
      && (forall x :: x in Keys(r) ==> x in CleanKeys(es) && !IsMeta(x) && !Renames(x))
      && (forall j :: 0 <= j < |es| && (IsMeta(CleanKey(es[j].0))
                                        || (es[j].1.Dict? && AllMeta(es[j].1.entries))) ==>
            CleanKey(es[j].0) !in Keys(r))
      && (forall j :: 0 <= j < |es| && !IsMeta(CleanKey(es[j].0)) && es[j].1.Dict?
                       && !AllMeta(es[j].1.entries) ==>
            CleanKey(es[j].0) in Keys(r) && Get(r, CleanKey(es[j].0)) == Dict(CleanEntries(es[j].1.entries)))
      && (forall j :: 0 <= j < |es| && !IsMeta(CleanKey(es[j].0)) && es[j].1.List? ==>
            CleanKey(es[j].0) in Keys(r) && Get(r, CleanKey(es[j].0)) == Dict(CleanEntries(Indexed(es[j].1.items))))
      && (forall j :: 0 <= j < |es| && !IsMeta(CleanKey(es[j].0)) && (es[j].1.Str? || es[j].1.Null?) ==>
            CleanKey(es[j].0) in Keys(r) && Get(r, CleanKey(es[j].0)) == es[j].1)
  {
    var outs := Outcomes(es);
    LevelSpec(es, outs);
    forall j | 0 <= j < |es| ensures outs[j] == Outcome(es[j]) {
      OutcomesAt(es, j);
    }
    var r := CleanEntries(es);
    assert r == Survivors(es, outs, false) + Survivors(es, outs, true);
    forall x | x in Keys(r) ensures !IsMeta(x) && !Renames(x) {
      var a :| 0 <= a < |es| && CleanKeys(es)[a] == x;
      assert outs[a].Some?;
    }
    forall j | 0 <= j < |es| {
      OutcomeCases(es[j]);
    }
  }

  /** What becomes of one entry, case by case. */
  lemma OutcomeCases(e: (string, Node))
    ensures (IsMeta(CleanKey(e.0)) || (e.1.Dict? && AllMeta(e.1.entries))) ==> Outcome(e).None?
    ensures !IsMeta(CleanKey(e.0)) && e.1.Dict? && !AllMeta(e.1.entries) ==>
      Outcome(e) == Some(Dict(CleanEntries(e.1.entries)))
    ensures !IsMeta(CleanKey(e.0)) && e.1.List? ==> Outcome(e) == Some(Dict(CleanEntries(Indexed(e.1.items))))
    ensures !IsMeta(CleanKey(e.0)) && (e.1.Str? || e.1.Null?) ==> Outcome(e) == Some(e.1)
  {
  }

  /** `clean_dict_names` on a level with distinct cleaned keys: nothing is
      removed, each entry is found under its cleaned key, a dict value cleaned
      and any other value (a list or metadata included) unchanged. */
  lemma CleanTopSpec(es: seq<(string, Node)>)
    requires DistinctCleanKeys(es)
    ensures var r := CleanTop(es);
      && UniqueKeys(r) && |r| == |es|
      && (forall x :: x in Keys(r) ==> x in CleanKeys(es) && !Renames(x))
      && (forall j :: 0 <= j < |es| ==>
            CleanKey(es[j].0) in Keys(r) && Get(r, CleanKey(es[j].0)) == TopValue(es[j].1))
  {
    var outs := TopOutcomes(es);
    LevelSpec(es, outs);
    var r := CleanTop(es);
    forall x | x in Keys(r) ensures !Renames(x) {
      var a :| 0 <= a < |es| && CleanKeys(es)[a] == x;
    }
    SurvivorsLength(es, outs);
  }

  /** When every entry survives, the two halves together hold all of them. */
  lemma {:induction false} SurvivorsLength(es: seq<(string, Node)>, outs: seq<Option<Node>>)
    requires |outs| == |es| && forall j :: 0 <= j < |outs| ==> outs[j].Some?
    ensures |Survivors(es, outs, false)| + |Survivors(es, outs, true)| == |es|
  {
    if es != [] {
      SurvivorsLength(es[..|es| - 1], outs[..|es| - 1]);
    }
  }

  /** No list, no metadata key and no key holding exactly one ':' anywhere in
      the tree. */
  ghost predicate Normal(v: Node)
  {
    match v
    case List(_) => false
    case Dict(es) => forall m :: 0 <= m < |es| ==> !IsMeta(es[m].0) && !Renames(es[m].0) && Normal(es[m].1)
    case _ => true
  }

  /** Whatever the nested cleaner keeps is normal all the way down. */
  lemma {:induction false} CleanChildNormal(v: Node)
    ensures CleanChild(v).Some? ==> Normal(CleanChild(v).value)
    decreases Size(v), 1
  {
    match v
    case Dict(es) =>
      if !AllMeta(es) {
        CleanEntriesNormal(es);
      }
    case List(xs) =>
      IndexedSize(xs);
      CleanEntriesNormal(Indexed(xs));
    case _ =>
  }

  lemma {:induction false} CleanEntriesNormal(es: seq<(string, Node)>)
    ensures Normal(Dict(CleanEntries(es)))
    decreases EntriesSize(es), 2
  {
    var outs := Outcomes(es);
    var S, M := Survivors(es, outs, false), Survivors(es, outs, true);
    var r := CleanEntries(es);
    assert r == S + M;
    SurvivorEntries(es, outs, false);
    SurvivorEntries(es, outs, true);
    forall m | 0 <= m < |r| ensures !IsMeta(r[m].0) && !Renames(r[m].0) && Normal(r[m].1) {
      var e := r[m];
      if m < |S| {
        assert e == S[m] && FromLevel(es, outs, S[m]);
      } else {
        assert e == M[m - |S|] && FromLevel(es, outs, M[m - |S|]);
      }
      var j :| From(es, outs, e, j);
      OutcomesAt(es, j);
      EntrySizeBound(es, j);
      CleanChildNormal(es[j].1);
    }
  }

  /** After the top-level pass every dict value is normal (lists directly under
      the top level are kept as they are). */
  lemma CleanTopNormal(es: seq<(string, Node)>)
    ensures forall m :: 0 <= m < |CleanTop(es)| && CleanTop(es)[m].1.Dict? ==> Normal(CleanTop(es)[m].1)
  {
    var outs := TopOutcomes(es);
    var S, M := Survivors(es, outs, false), Survivors(es, outs, true);
    var r := CleanTop(es);
    assert r == S + M;
    SurvivorEntries(es, outs, false);
    SurvivorEntries(es, outs, true);
    forall m | 0 <= m < |r| && r[m].1.Dict? ensures Normal(r[m].1) {
      var e := r[m];
      if m < |S| {
        assert e == S[m] && FromLevel(es, outs, S[m]);
      } else {
        assert e == M[m - |S|] && FromLevel(es, outs, M[m - |S|]);
      }
      var j :| From(es, outs, e, j);
      if es[j].1.Dict? {
        CleanEntriesNormal(es[j].1.entries);
      }
    }
  }

  /** Cleaning is not idempotent: an empty list becomes an empty dict, which a
      second pass deletes. */
  lemma CleanTwice()
    ensures CleanEntries([("a", List([]))]) == [("a", Dict([]))]
    ensures CleanEntries([("a", Dict([]))]) == []
  {
    var es1: seq<(string, Node)> := [("a", List([]))];
    var es2: seq<(string, Node)> := [("a", Dict([]))];
    assert Count("a", ':') == 0;
    assert Indexed([]) == [];
    assert CleanEntries([]) == [];
    assert Outcomes(es1) == [Some(Dict([]))] by {
      assert es1[..0] == [];
    }
    assert Outcomes(es2) == [None] by {
      assert es2[..0] == [];
    }
  }

  /** A key `ns:name` with one ':' is renamed to `name`. */
  lemma SingleColonRenamed(ns: string, name: string)
    requires ':' !in ns && ':' !in name
    ensures Renames(ns + [':'] + name)
    ensures CleanKey(ns + [':'] + name) == name
  {
    CountConcat(ns + [':'], name, ':');
    CountConcat(ns, [':'], ':');
    SplitAround(ns, name, ':');
    SplitNone(ns, ':');
    SplitNone(name, ':');
  }

  /** A key with two or more ':' is not renamed and keeps its colons. */
  lemma TwoColonsKept(k: string)
    requires Count(k, ':') >= 2
    ensures !Renames(k) && CleanKey(k) == k && Count(CleanKey(k), ':') >= 2
  {
  }

  /** The key `a:b:c` is kept as it is. */
  lemma TwoColonsExample()
    ensures CleanKey("a:b:c") == "a:b:c"
  {
    var k := "a:b:c";
    assert k[1..][1..][1..][1..] == "c" && Count("c", ':') == 0;
    assert Count(k, ':') == 2;
  }

  // ---------------------------------------------------------------------------
  // The two cleaners.

  /** `recursive_clean_function(dict_to_clean)`: the entries returned stand for
      the dict as the call leaves it. */
  method CleanLevel(es: seq<(string, Node)>) returns (cleaned: seq<(string, Node)>)
    requires Cleanable(es)
    ensures cleaned == CleanEntries(es)
    decreases EntriesSize(es), 3
  {
    var keys := Keys(es);
    var d := es;
    var i := 0;
    assert d == Progress(es, Outcomes(es), 0) by { ProgressStart(es, Outcomes(es)); }
    while i < |keys|
      invariant 0 <= i <= |es|
      invariant d == Progress(es, Outcomes(es), i)
    {
      d := VisitLevel(d, keys, es, i);
      i := i + 1;
    }
    assert i == |es|;
    assert Progress(es, Outcomes(es), |es|) == CleanEntries(es) by { LevelDone(es); }
    cleaned := d;
  }

  /** One iteration of the loop of `recursive_clean_function`, on its `i`-th
      key. */
  method VisitLevel(d: seq<(string, Node)>, keys: seq<string>, ghost es: seq<(string, Node)>, i: nat)
    returns (d': seq<(string, Node)>)
    requires Cleanable(es) && i < |es| && keys == Keys(es)
    requires d == Progress(es, Outcomes(es), i)
    ensures d' == Progress(es, Outcomes(es), i + 1)
    decreases EntriesSize(es), 2
  {
    ghost var outs := Outcomes(es);
    var clean;
    var moved;
    moved, clean := RenameKey(d, keys[i], es, outs, i);
    ghost var before, after := Before(es, outs, i), After(es, outs, i);
    if !IsMeta(clean) {
      ChildrenCleanableAt(es, i);
    }
    EntrySizeBound(es, i);
    OutcomesAt(es, i);
    d' := CleanSlot(moved, clean, before, after, es[i].1);
  }

  /** The first statements of both cleaners' loops for the key `key` of entry
      `i`: a key with exactly one ':' is replaced by its cleaned form, which
      moves the entry to the end. */
  method RenameKey(d: seq<(string, Node)>, key: string,
                   ghost es: seq<(string, Node)>, ghost outs: seq<Option<Node>>, ghost i: nat)
    returns (d': seq<(string, Node)>, clean: string)
    requires |outs| == |es| && i < |es| && DistinctCleanKeys(es)
    requires key == es[i].0 && d == Progress(es, outs, i)
    ensures clean == CleanKey(key)
    ensures d' == Before(es, outs, i) + [(clean, es[i].1)] + After(es, outs, i)
    ensures clean !in Keys(Before(es, outs, i))
    ensures Progress(es, outs, i + 1) == Before(es, outs, i) + Piece(clean, outs[i]) + After(es, outs, i)
  {
    VisitFresh(es, outs, i);
    VisitNext(es, outs, i);
    clean := key;
    if Count(key, ':') == 1 {
      VisitRenamed(es, outs, i);
      clean := Split(key, ':')[1];
      d' := Assign(d, clean, Get(d, key));
      d' := Delete(d', key);
    } else {
      VisitPlain(es, outs, i);
      d' := d;
    }
  }

  /** The body of the loop of `recursive_clean_function` once the key `clean`
      is in place: delete metadata keys and all-metadata dicts, clean other
      dicts, convert lists and clean the result, keep anything else. */
  method CleanSlot(d: seq<(string, Node)>, clean: string,
                   ghost before: seq<(string, Node)>, ghost after: seq<(string, Node)>, ghost v: Node)
    returns (d': seq<(string, Node)>)
    requires d == before + [(clean, v)] + after && clean !in Keys(before)
    requires clean != "" && (IsMeta(clean) || ChildCleanable(v))
    ensures d' == before + Piece(clean, if IsMeta(clean) then None else CleanChild(v)) + after
    decreases Size(v), 1
  {
    AtSlot(before, (clean, v), after, v);
    if clean[0] == '@' {
      d' := Delete(d, clean);
    } else {
      var value := Get(d, clean);
      if value.Dict? {
        if AllMeta(value.entries) {
          d' := Delete(d, clean);
        } else {
          var c := CleanLevel(value.entries);
          AtSlot(before, (clean, v), after, Dict(c));
          d' := Assign(d, clean, Dict(c));
        }
      } else if value.List? {
        var converted := Indexed(value.items);
        AtSlot(before, (clean, v), after, Dict(converted));
        d' := Assign(d, clean, Dict(converted));
        IndexedSize(value.items);
        var c := CleanLevel(converted);
        AtSlot(before, (clean, Dict(converted)), after, Dict(c));
        d' := Assign(d', clean, Dict(c));
      } else {
        d' := d;
      }
    }
  }

  /** `clean_dict_names(data_dict)`: renames and cleans dict values, but neither
      prunes nor converts lists at this level. */
  method CleanDictNames(es: seq<(string, Node)>) returns (cleaned: seq<(string, Node)>)
    requires TopCleanable(es)
    ensures cleaned == CleanTop(es)
  {
    var keys := Keys(es);
    var d := es;
    var i := 0;
    assert d == Progress(es, TopOutcomes(es), 0) by { ProgressStart(es, TopOutcomes(es)); }
    while i < |keys|
      invariant 0 <= i <= |es|
      invariant d == Progress(es, TopOutcomes(es), i)
    {
      d := VisitTop(d, keys, es, i);
      i := i + 1;
    }
    assert i == |es|;
    assert Progress(es, TopOutcomes(es), |es|) == CleanTop(es) by { TopDone(es); }
    cleaned := d;
  }

  /** One iteration of the loop of `clean_dict_names`, on its `i`-th key. */
  method VisitTop(d: seq<(string, Node)>, keys: seq<string>, ghost es: seq<(string, Node)>, i: nat)
    returns (d': seq<(string, Node)>)
    requires TopCleanable(es) && i < |es| && keys == Keys(es)
    requires d == Progress(es, TopOutcomes(es), i)
    ensures d' == Progress(es, TopOutcomes(es), i + 1)
  {
    ghost var outs := TopOutcomes(es);
    var clean;
    var moved;
    moved, clean := RenameKey(d, keys[i], es, outs, i);
    ghost var before, after := Before(es, outs, i), After(es, outs, i);
    assert clean == CleanKey(es[i].0) && outs[i] == Some(TopValue(es[i].1));
    d' := CleanTopSlot(moved, clean, before, after, es[i].1);
  }

  /** The body of the loop of `clean_dict_names` once the key `clean` is in
      place: a dict value is cleaned, anything else is kept. */
  method CleanTopSlot(d: seq<(string, Node)>, clean: string,
                      ghost before: seq<(string, Node)>, ghost after: seq<(string, Node)>, ghost v: Node)
    returns (d': seq<(string, Node)>)
    requires d == before + [(clean, v)] + after && clean !in Keys(before)
    requires v.Dict? ==> Cleanable(v.entries)
    ensures d' == before + [(clean, TopValue(v))] + after
  {
    AtSlot(before, (clean, v), after, v);
    var value := Get(d, clean);
    if value.Dict? {
      var c := CleanLevel(value.entries);
      AtSlot(before, (clean, v), after, Dict(c));
      d' := Assign(d, clean, Dict(c));
    } else {
      d' := d;
    }
  }
}
