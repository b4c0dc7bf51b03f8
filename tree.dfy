/** The generic tree produced by parsing one XML document (scalars, mappings,
    sequences), Python's errors, and the dictionary operations the script uses.
    A Python dict is an association sequence: keys are unique, iteration follows
    insertion order, assigning to an existing key replaces its value in place and
    assigning to a new key appends it. */
module Tree {

  /** A parsed-XML value: text, an empty element, a mapping or a repeated element. */
  datatype Node =
    | Str(s: string)
    | Null
    | Dict(entries: seq<(string, Node)>)
    | List(items: seq<Node>)

  /** The Python exceptions the script can raise. `NotText` stands for a value
      that is not a string where the model needs one (see README). */
  datatype PyError =
    | KeyError(key: string)
    | TypeError
    | AttributeError
    | IndexError
    | NotText

  datatype Option<+T> = None | Some(value: T)

  datatype Result<+T> = Ok(value: T) | Err(error: PyError) {
    predicate IsFailure() { Err? }
    function PropagateFailure<U>(): Result<U> requires Err? { Err(error) }
    function Extract(): T requires Ok? { value }
  }

  /** The keys of a dict, in iteration order (Python's `list(d)`). */
  function Keys(d: seq<(string, Node)>): (ks: seq<string>)
    ensures |ks| == |d|
    ensures forall i :: 0 <= i < |d| ==> ks[i] == d[i].0
  {
    seq(|d|, i requires 0 <= i < |d| => d[i].0)
  }

  predicate UniqueKeys(d: seq<(string, Node)>)
  {
    forall i, j :: 0 <= i < j < |d| ==> d[i].0 != d[j].0
  }

  /** Position of the first entry with key `k`. */
  function IndexOf(d: seq<(string, Node)>, k: string): (i: nat)
    requires k in Keys(d)
    ensures i < |d| && d[i].0 == k
    ensures forall j :: 0 <= j < i ==> d[j].0 != k
  {
    if d[0].0 == k then 0 else IndexOf(d[1..], k) + 1
  }

  /** `d[k]` for a key that is present. */
  function Get(d: seq<(string, Node)>, k: string): Node
    requires k in Keys(d)
  {
    d[IndexOf(d, k)].1
  }

  /** `d[k] = v`: replace in place when `k` is present, otherwise append. */
  function Assign(d: seq<(string, Node)>, k: string, v: Node): seq<(string, Node)>
  {
    if k in Keys(d) then d[IndexOf(d, k) := (k, v)] else d + [(k, v)]
  }

  /** `del d[k]` for a key that is present (Python raises KeyError otherwise). */
  function Delete(d: seq<(string, Node)>, k: string): (r: seq<(string, Node)>)
    requires k in Keys(d)
    ensures |r| == |d| - 1
  {
    var i := IndexOf(d, k);
    d[..i] + d[i + 1..]
  }

  /** The first entry with key `k` is the one at position `i` when no earlier
      entry has that key. */
  lemma IndexOfUnique(d: seq<(string, Node)>, k: string, i: nat)
    requires i < |d| && d[i].0 == k
    requires forall j :: 0 <= j < i ==> d[j].0 != k
    ensures k in Keys(d) && IndexOf(d, k) == i
  {
    assert Keys(d)[i] == k;
  }

  /** In a dict with distinct keys, reading the key of an entry yields that
      entry's value. */
  lemma GetUnique(d: seq<(string, Node)>)
    ensures UniqueKeys(d) ==> forall i :: 0 <= i < |d| ==> Get(d, d[i].0) == d[i].1
  {
    if UniqueKeys(d) {
      forall i | 0 <= i < |d|
        ensures Get(d, d[i].0) == d[i].1
      {
        IndexOfUnique(d, d[i].0, i);
      }
    }
  }

  lemma KeysConcat(a: seq<(string, Node)>, b: seq<(string, Node)>)
    ensures Keys(a + b) == Keys(a) + Keys(b)
  {
  }

  /** Reading a concatenation finds the first part's entry when it has one. */
  lemma GetConcat(a: seq<(string, Node)>, b: seq<(string, Node)>, k: string)
    requires k in Keys(a) || k in Keys(b)
    ensures k in Keys(a + b)
    ensures k in Keys(a) ==> Get(a + b, k) == Get(a, k)
    ensures k !in Keys(a) ==> Get(a + b, k) == Get(b, k)
  {
    KeysConcat(a, b);
    if k in Keys(a) {
      IndexOfUnique(a + b, k, IndexOf(a, k));
    } else {
      var j := IndexOf(b, k);
      forall m | 0 <= m < |a| ensures (a + b)[m].0 != k {
        assert Keys(a)[m] == a[m].0;
      }
      IndexOfUnique(a + b, k, |a| + j);
    }
  }

  /** Appending an entry with a new key keeps the keys unique. */
  lemma UniqueAppend(a: seq<(string, Node)>, e: (string, Node))
    requires UniqueKeys(a) && e.0 !in Keys(a)
    ensures UniqueKeys(a + [e])
  {
    forall i | 0 <= i < |a| ensures a[i].0 != e.0 {
      assert Keys(a)[i] == a[i].0;
    }
  }

  /** The three dictionary operations on the entry `e` that follows a prefix `a`
      not holding its key: reading gives its value, deleting removes exactly it,
      assigning replaces it in place. */
  lemma AtSlot(a: seq<(string, Node)>, e: (string, Node), c: seq<(string, Node)>, w: Node)
    requires e.0 !in Keys(a)
    ensures e.0 in Keys(a + [e] + c)
    ensures Get(a + [e] + c, e.0) == e.1
    ensures Delete(a + [e] + c, e.0) == a + c
    ensures Assign(a + [e] + c, e.0, w) == a + [(e.0, w)] + c
  {
    var d := a + [e] + c;
    forall j | 0 <= j < |a| ensures d[j].0 != e.0 {
      assert Keys(a)[j] == a[j].0;
    }
    IndexOfUnique(d, e.0, |a|);
    assert d[..|a|] == a;
    assert d[|a| + 1..] == c;
    assert d[|a| := (e.0, w)] == a + [(e.0, w)] + c;
  }

  /** Renaming the entry `e` that follows `a` to the absent key `k`
      (`d[k] = d[e.0]; del d[e.0]`) moves it to the end under `k`. */
  lemma RenameEntry(a: seq<(string, Node)>, e: (string, Node), c: seq<(string, Node)>, k: string)
    requires e.0 !in Keys(a)
    requires k !in Keys(a) && k != e.0 && k !in Keys(c)
    ensures e.0 in Keys(a + [e] + c) && Get(a + [e] + c, e.0) == e.1
    ensures e.0 in Keys(Assign(a + [e] + c, k, e.1))
    ensures Delete(Assign(a + [e] + c, k, e.1), e.0) == a + c + [(k, e.1)]
  {
    var d, c' := a + [e] + c, c + [(k, e.1)];
    AtSlot(a, e, c, e.1);
    assert k !in Keys(d) by {
      KeysConcat(a, [e]);
      KeysConcat(a + [e], c);
      assert Keys([e]) == [e.0];
    }
    assert Assign(d, k, e.1) == a + [e] + c' by {
      AssignFresh(d, k, e.1);
    }
    AtSlot(a, e, c', e.1);
    assert a + c' == a + c + [(k, e.1)];
  }

  /** After `d[k] = v`, reading `k` gives `v`; a present key keeps its position
      and an absent one goes to the end; every other entry keeps its key, value
      and position. */
  lemma AssignSpec(d: seq<(string, Node)>, k: string, v: Node)
    ensures var r := Assign(d, k, v);
      && k in Keys(r) && Get(r, k) == v
      && (k in Keys(d) ==> |r| == |d| && Keys(r) == Keys(d))
      && (k !in Keys(d) ==> |r| == |d| + 1 && r[..|d|] == d && r[|d|] == (k, v))
      && forall j :: 0 <= j < |d| && d[j].0 != k ==> r[j] == d[j]
  {
    var r := Assign(d, k, v);
    if k in Keys(d) {
      IndexOfUnique(r, k, IndexOf(d, k));
      assert Keys(r) == Keys(d);
    } else {
      IndexOfUnique(r, k, |d|);
    }
  }

  /** Assigning a key that is absent appends it. */
  lemma AssignFresh(d: seq<(string, Node)>, k: string, v: Node)
    requires k !in Keys(d)
    ensures Assign(d, k, v) == d + [(k, v)]
  {
  }
}
