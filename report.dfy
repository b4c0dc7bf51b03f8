/** The report rows built from the index at the end of `open_data_folders`:
    one row per country, in the order the countries were first seen, holding
    the country and its institution names joined with ", " with every '"'
    removed. Writing the rows out as a table is not part of this model. */
module Report {
  import opened Tree
  import opened Text
  import opened Affiliations

  const Separator := ", "

  /** `", ".join(value).replace('"', '')`. */
  function FormatInstitutions(names: seq<string>): (r: string)
    ensures '"' !in r
    ensures |r| <= |JoinWith(names, Separator)|
    ensures names == [] ==> r == ""
    // Names without quotes come out joined and otherwise untouched.
    ensures (forall i :: 0 <= i < |names| ==> '"' !in names[i]) ==> r == JoinWith(names, Separator)
  {
    JoinWithNoQuote(names);
    StripQuotesUnchanged(JoinWith(names, Separator));
    StripQuotes(JoinWith(names, Separator))
  }

  /** Joining quote-free names with the separator adds no quote. */
  lemma {:induction false} JoinWithNoQuote(names: seq<string>)
    ensures (forall i :: 0 <= i < |names| ==> '"' !in names[i]) ==> '"' !in JoinWith(names, Separator)
  {
    if |names| > 1 && forall i :: 0 <= i < |names| ==> '"' !in names[i] {
      JoinWithNoQuote(names[1..]);
      assert '"' !in names[0] && '"' !in Separator;
    }
  }

  /** The names with their quotes removed, one by one. */
  function Unquoted(names: seq<string>): (r: seq<string>)
    ensures |r| == |names|
    ensures forall i :: 0 <= i < |names| ==> r[i] == StripQuotes(names[i])
  {
    seq(|names|, i requires 0 <= i < |names| => StripQuotes(names[i]))
  }

  /** Removing the quotes from the joined text is joining the names with their
      quotes removed: the separator is kept and nothing else changes. */
  lemma {:induction false} FormatUnquoted(names: seq<string>)
    ensures FormatInstitutions(names) == JoinWith(Unquoted(names), Separator)
  {
    if |names| == 1 {
      assert Unquoted(names) == [StripQuotes(names[0])];
    } else if |names| > 1 {
      var rest := names[1..];
      var tail := JoinWith(rest, Separator);
      FormatUnquoted(rest);
      assert Unquoted(names)[1..] == Unquoted(rest);
      SeparatorPlain();
      StripQuotesConcat(names[0] + Separator, tail);
      StripQuotesConcat(names[0], Separator);
    }
  }

  lemma SeparatorPlain()
    ensures StripQuotes(Separator) == Separator
  {
    assert '"' !in Separator;
    StripQuotesUnchanged(Separator);
  }

  /** The names a row lists, for names free of ',' and '"': the first piece of
      the cell split at ',' is the first name, every later piece a space and
      the next name. */
  function ListedAs(names: seq<string>): (r: seq<string>)
    requires |names| >= 1
    ensures |r| == |names|
  {
    [names[0]] + seq(|names| - 1, k requires 0 <= k < |names| - 1 => " " + names[k + 1])
  }

  /** Splitting a row's cell at ',' gives the names back (each after the
      first behind the separator's space), when no name holds ',' or '"'. */
  lemma {:induction false} FormatSplit(names: seq<string>)
    requires |names| >= 1
    requires forall i :: 0 <= i < |names| ==> ',' !in names[i] && '"' !in names[i]
    ensures Split(FormatInstitutions(names), ',') == ListedAs(names)
  {
    FormatUnquoted(names);
    forall i | 0 <= i < |names| ensures Unquoted(names)[i] == names[i] {
      StripQuotesUnchanged(names[i]);
    }
    assert Unquoted(names) == names;
    JoinWithSplit(names);
  }

  lemma {:induction false} JoinWithSplit(names: seq<string>)
    requires |names| >= 1
    requires forall i :: 0 <= i < |names| ==> ',' !in names[i]
    ensures Split(JoinWith(names, Separator), ',') == ListedAs(names)
  {
    if |names| == 1 {
      SplitNone(names[0], ',');
    } else {
      var rest := names[1..];
      JoinWithSplit(rest);
      var tail := JoinWith(rest, Separator);
      SeparatorShape(names[0], tail);
      SplitAround(names[0], " " + tail, ',');
      SplitNone(names[0], ',');
      SplitSpace(tail);
      ListedAsCons(names);
    }
  }

  /** The separator is a comma and a space. */
  lemma SeparatorShape(a: string, t: string)
    ensures a + Separator + t == a + [','] + (" " + t)
  {
  }

  /** The names a row lists, from those of all names but the first. */
  lemma ListedAsCons(names: seq<string>)
    requires |names| >= 2
    ensures var l := ListedAs(names[1..]);
      ListedAs(names) == [names[0]] + ([" " + l[0]] + l[1..])
  {
  }

  /** A leading space joins the first piece. */
  lemma SplitSpace(s: string)
    ensures Split(" " + s, ',') == [" " + Split(s, ',')[0]] + Split(s, ',')[1..]
  {
    assert (" " + s)[0] == ' ' && (" " + s)[1..] == s;
  }

  /** `if task1:` and the loop over `task1.items()` that builds the rows. */
  method ReportRows(index: AffiliationIndex) returns (rows: Option<seq<(string, string)>>)
    requires index.Valid()
    ensures rows.None? <==> index.countries == []
    ensures rows.Some? ==>
      |rows.value| == |index.countries|
      && forall i :: 0 <= i < |rows.value| ==>
           rows.value[i] == (index.countries[i], FormatInstitutions(index.insts[index.countries[i]]))
  {
    assert index.countries != [] ==> index.countries[0] in index.insts;
    if index.insts == map[] {
      return None;
    }
    var keys := index.countries;
    var acc: seq<(string, string)> := [];
    var i := 0;
    while i < |keys|
      invariant 0 <= i <= |keys| && |acc| == i
      invariant forall j :: 0 <= j < i ==> acc[j] == (keys[j], FormatInstitutions(index.insts[keys[j]]))
    {
      acc := acc + [(keys[i], FormatInstitutions(index.insts[keys[i]]))];
      i := i + 1;
    }
    return Some(acc);
  }
}
