# ORCID record loader: normaliser, extractor and affiliation index in Dafny

This project models the data-processing core of `srcORCID_v01.py`. That script
turns ORCID researcher records, already parsed from XML into nested dicts, into
database documents. It also collects a report of the institutions per country
found in those records.

- **Trees** (`tree.dfy`, module `Tree`). A parsed value is text, `None`, a dict
  or a list. A dict is a sequence of (key, value) entries in insertion order.
  Assigning to an existing key replaces its value in place. Assigning to a new
  key appends the entry. Python's exceptions are the datatype `PyError`.
- **Strings** (`text.dfy`, module `Text`). The string operations the script
  uses: `count`, `split`, `join`, `str(n)`, `in` on strings and
  `replace('"', '')`.
- **Normaliser** (`normaliser.dfy`, module `Normaliser`).
  `recursive_clean_function` and `clean_dict_names` are methods with the
  source's loops over a snapshot of the keys. They update a local entry
  sequence step by step. Each is proved equal to a specification function,
  `CleanEntries` or `CleanTop`, and lemmas state what those functions leave
  behind:
  - single-colon keys are renamed and move to the end;
  - metadata keys and all-metadata dicts are removed;
  - lists become dicts keyed `"0"`..`"n-1"`;
  - the top-level pass keeps everything and only cleans dict values.
- **Extractor** (`extractor.dfy`, module `Extractor`).
  `extract_information_from_xml` is a method. Its contract gives the result for
  every shape of input:
  - the empty dict for a record of the wrong shape;
  - otherwise the document `_id`, `person`, `activities-summary`;
  - Python's error where the source raises one.
- **Affiliation collector** (`affiliations.dfy`, module `Affiliations`). Lines
  133-187 of `open_data_folders` are lifted into methods of the class
  `AffiliationIndex`, whose fields are the dict `task1`. The reading of one
  document is specified as a value: the (country, name) pairs in the order met,
  and the error that stopped the reading, if any. The methods are proved to
  update the index by `Apply` of that reading. Lemmas about `Apply` state:
  - well-formedness (distinct countries, duplicate-free lists);
  - exactly which pairs the index holds afterwards;
  - prefix growth of every list;
  - idempotence.
- **Report** (`report.dfy`, module `Report`). The rows built at lines 188-192:
  one row per country in insertion order, with the names joined by `", "` and
  every `"` removed.
- **Scenarios** (`scenarios.dfy`, module `Scenarios`). The collector on a
  single group and on a numbered group container, for any country and two
  distinct names.

Points of the code's behaviour that the model keeps as they are:

- **Errors are not caught.** The code keeps no counters and skips nothing after
  an error: a missing `organization`, `address`, `country` or `name`, or a missing `@path`, raises.
  The model returns that error (`Err`, or the `err` out-parameter). It keeps the
  index exactly as the source leaves it at the point of the raise. In
  particular, an unseen country whose `name` is missing has already been given
  an empty list.
- **Normalisation is not idempotent.** The top-level pass keeps lists, but at a
  nested level `{"x": {"a": []}}` becomes `{"x": {"a": {}}}`, and a second pass
  gives `{"x": {}}` (`Normaliser.CleanTwice` proves the step on the inner
  level).
- **Colons.** Only keys with exactly one `:` are renamed. A key with two colons
  keeps both (`Normaliser.TwoColonsKept`).
- **The per-country names are lists.** They keep insertion order and hold no
  repeats, in the code and in the model.

## Model

| member | source | states |
|---|---|---|
| Text.Count | srcORCID_v01.py:22 | `key.count(':')` is at most the length and is zero exactly when the character is absent |
| Text.Split | srcORCID_v01.py:23 | `split(':')` gives one more piece than there are separators, none holding the separator |
| Text.JoinSplit | srcORCID_v01.py:23 | splitting and joining on the same character gives the text back |
| Text.SplitSecond | srcORCID_v01.py:102 | a path holding '/' is its first piece, '/', its second piece and the rest, which is empty or starts with '/' |
| Text.NatToString | srcORCID_v01.py:47 | `str(i)` is a non-empty string of decimal digits with no leading zero, and is "0" exactly for zero |
| Text.ParseNatToString | srcORCID_v01.py:47 | reading the text of a position back gives the position |
| Text.NatToStringInjective | srcORCID_v01.py:47-48 | distinct positions get distinct keys |
| Text.IsSubstringOccurs | srcORCID_v01.py:133-134 | Python's `t in s` on text holds exactly when `t` occurs at some position of `s` |
| Text.StripQuotes | srcORCID_v01.py:192 | `replace('"', '')` leaves no quote and removes exactly the quotes |
| Text.StripQuotesUnchanged | srcORCID_v01.py:192 | text without a quote is unchanged |
| Text.StripQuotesConcat | srcORCID_v01.py:192 | quote removal distributes over concatenation |
| Tree.IndexOfUnique | srcORCID_v01.py:24 | a key's first entry is at the position where it first occurs |
| Tree.GetConcat | srcORCID_v01.py:24 | reading a key from two dicts joined finds the first one's entry when it has one |
| Tree.AtSlot | srcORCID_v01.py:24-25 | on an entry after a prefix without its key, reading gives its value, `del` removes exactly it, assignment replaces it in place |
| Tree.RenameEntry | srcORCID_v01.py:24-25 | `d[new] = d[old]; del d[old]` for an absent `new` moves the entry to the end under `new` |
| Tree.GetUnique | srcORCID_v01.py:139-140 | in a dict with distinct keys, reading an entry's key gives that entry's value |
| Tree.AssignSpec | srcORCID_v01.py:102 | after `d[k] = v`, reading `k` gives `v`; a present key keeps its position and the keys are unchanged, an absent key is appended at the end; every other entry keeps its key, value and position |
| Normaliser.CleanKey | srcORCID_v01.py:22-23 | the cleaned key never holds exactly one ':'; a renamed key holds none; any other key is unchanged |
| Normaliser.SingleColonRenamed | srcORCID_v01.py:22-23 | a key `ns:name` is renamed, to `name` |
| Normaliser.TwoColonsKept | srcORCID_v01.py:22 | any key with two or more colons is not renamed and keeps its colons |
| Normaliser.TwoColonsExample | srcORCID_v01.py:22 | the key `a:b:c` is kept as it is |
| Normaliser.Indexed | srcORCID_v01.py:47-48 | the converted list has one entry per element; the key of entry i reads back as i and its value is `xs[i]`, so the keys are distinct |
| Normaliser.IndexedKeys | srcORCID_v01.py:47-48 | the converted list's keys are "0".."n-1", distinct, non-empty, not renamed and not metadata |
| Normaliser.CleanLevel | srcORCID_v01.py:9-50 | `recursive_clean_function` leaves the dict `CleanEntries(es)` |
| Normaliser.VisitLevel | srcORCID_v01.py:19-50 | one iteration, on the i-th key of the original key list, takes the dict `Progress(es, outs, i)` to `Progress(es, outs, i + 1)` |
| Normaliser.RenameKey | srcORCID_v01.py:19-25 | renaming a key with exactly one ':' moves its entry to the end under the cleaned key, which no earlier entry holds; any other key stays in place |
| Normaliser.CleanSlot | srcORCID_v01.py:28-50 | at the entry's slot: metadata keys and all-metadata dicts are deleted, dicts cleaned, lists converted then cleaned, other values kept |
| Normaliser.CleanDictNames | srcORCID_v01.py:53-76 | `clean_dict_names` leaves the dict `CleanTop(es)` |
| Normaliser.VisitTop | srcORCID_v01.py:62-76 | one iteration of the top-level loop takes `Progress(es, outs, i)` to `Progress(es, outs, i + 1)` |
| Normaliser.CleanTopSlot | srcORCID_v01.py:74-76 | at the top level, a dict value is cleaned and any other value is kept |
| Normaliser.VisitRenamed | srcORCID_v01.py:22-25 | the rename step turns the state before visiting entry i into the state with that entry moved to the end under its cleaned key |
| Normaliser.SurvivorsSpec | srcORCID_v01.py:18-50 | each half of the result has unique keys; an entry's cleaned key is present iff the entry survives, and holds its outcome |
| Normaliser.CleanEntriesSpec | srcORCID_v01.py:18-50 | the cleaned level has unique keys, none metadata and none holding one ':'; metadata keys and all-metadata dicts (the empty dict included) are gone; every other dict is cleaned, every list becomes its indexed dict cleaned, and text and `None` are kept under the cleaned key |
| Normaliser.CleanTopSpec | srcORCID_v01.py:62-76 | the top-level pass keeps every entry (metadata keys and lists included) under its cleaned key with unique keys; dict values are cleaned and other values kept |
| Normaliser.SurvivorsLength | srcORCID_v01.py:62-76 | when every entry survives, the result has as many entries as the input |
| Normaliser.CleanChildNormal | srcORCID_v01.py:28-50 | a value the nested cleaner keeps holds no list and no metadata or single-colon key at any depth |
| Normaliser.CleanEntriesNormal | srcORCID_v01.py:9-50 | the same for a whole cleaned level |
| Normaliser.CleanTopNormal | srcORCID_v01.py:74-76 | every dict value the top-level pass leaves holds no list and no metadata or single-colon key at any depth |
| Normaliser.CleanTwice | srcORCID_v01.py:37-39 | the nested cleaner is not idempotent: an empty list becomes an empty dict, which a second pass deletes |
| Extractor.Contains | srcORCID_v01.py:92-94 | Python's `key in v`: None is TypeError and nothing else fails; true on a dict exactly when some entry has the key, on text exactly when the key occurs at some position, on a list exactly when some element is that text |
| Extractor.HasBoth | srcORCID_v01.py:94 | the short-circuit `all(...)` fails exactly on None (TypeError); otherwise it is true exactly when both names are contained, and on a dict exactly when both keys are present |
| Extractor.Subscript | srcORCID_v01.py:97 | `v[key]` succeeds exactly on a dict holding the key, and gives the value of the first entry with that key (no earlier entry holds it); a missing key is KeyError for that key; a non-dict is TypeError |
| Extractor.PathId | srcORCID_v01.py:102 | `path.split('/')[1]` succeeds exactly when the path holds '/' (else IndexError), and gives the text between the first '/' and the next '/' or the end |
| Extractor.PathIdShape | srcORCID_v01.py:102 | the second piece sits right after the first '/' and runs to the next '/' or the end |
| Extractor.PathIdOf | srcORCID_v01.py:102 | conversely, the text after the first '/', up to the next '/' or the end, is the identifier |
| Extractor.ExampleId | srcORCID_v01.py:102 | `"/0000-0001-2345-6789/person"` gives `"0000-0001-2345-6789"` |
| Extractor.PersonId | srcORCID_v01.py:102 | the identifier exists exactly when the person is a dict whose `@path` is text holding '/'; a non-dict person is TypeError; a missing `@path` is KeyError |
| Extractor.PersonKeyRenamed | srcORCID_v01.py:69-72 | `person:person` is renamed to `person` |
| Extractor.ActivitiesKeyRenamed | srcORCID_v01.py:69-72 | `activities:activities-summary` is renamed to `activities-summary` |
| Extractor.IdKeyPlain | srcORCID_v01.py:102 | `_id` is not renamed by cleaning |
| Extractor.CleanThree | srcORCID_v01.py:62-76 | two renamed keys followed by a plain one end up as the plain one, then the two renamed, each with its top-level value |
| Extractor.CleanRecord | srcORCID_v01.py:97-106 | cleaning the built dict gives exactly `_id`, then `person` and `activities-summary` with cleaned values, and no other keys |
| Extractor.RecordCleanable | srcORCID_v01.py:97-106 | the built dict can go through the top-level pass when both subtrees can be cleaned |
| Extractor.ExtractInformation | srcORCID_v01.py:79-108 | no `record:record` gives `{}`; for a dict wrapper, the result is `{}` exactly when `person:person` or `activities:activities-summary` is missing; otherwise it is the cleaned document with `_id` from `@path`, or that read's error; a `None` wrapper is TypeError; text or a list is TypeError when it contains both names, `{}` otherwise |
| Affiliations.InsertedSpec | srcORCID_v01.py:143-148 | recording a pair keeps the index well formed and records it: an unseen country gets `[name]` at the end, a pair already held changes nothing, otherwise the name is appended; every old list is a prefix of its new one and other countries are unchanged |
| Affiliations.InsertedHolds | srcORCID_v01.py:143-148 | recording a pair adds exactly that pair |
| Affiliations.OpenThenInsert | srcORCID_v01.py:143-145 | creating an unseen country's empty list and appending to it is recording the pair |
| Affiliations.OpenedSpec | srcORCID_v01.py:143-144 | opening a country keeps the index well formed and what it records; an unseen country gets an empty list at the end |
| Affiliations.InsertAllHolds | srcORCID_v01.py:139-148 | after recording pairs in order, the index holds a pair exactly when it held it before or the pair was recorded |
| Affiliations.InsertAllSpec | srcORCID_v01.py:139-148 | recording pairs keeps the index well formed and only ever extends it |
| Affiliations.InsertAllPresent | srcORCID_v01.py:147-148 | pairs the index already holds change nothing |
| Affiliations.InsertAllConcat | srcORCID_v01.py:139-148 | recording two runs of pairs is recording the first and then the second |
| Affiliations.GroupValues | srcORCID_v01.py:139-140 | `for group in ag` with `ag[str(group)]`: a dict gives one group per entry, read by that entry's key, and the entry's own value when keys are distinct; empty text or an empty list gives no groups; other text, lists and None are TypeError |
| Affiliations.ReadGroupSpec | srcORCID_v01.py:140-145 | a group reads as a pair exactly when `summary.organization.address.country` and `summary.organization.name` lead to text, and then it is that pair; a key missing on the way is KeyError for that key; only a name failure leaves the country read behind |
| Affiliations.SectionShapes | srcORCID_v01.py:133-158 | on any `activities-summary`: None is TypeError; an absent section or an absent `affiliation-group` reads nothing; a dict container holding `last-modified-date` is read as one group; any other dict container is read value by value |
| Affiliations.ApplySpec | srcORCID_v01.py:133-187 | applying a reading keeps the index well formed, adds exactly its pairs and only extends the index |
| Affiliations.ApplyIdempotent | srcORCID_v01.py:147-148 | reading the same document twice leaves the index as reading it once |
| Affiliations.ApplyThen | srcORCID_v01.py:133-187 | reading educations then employments is applying one and then the other |
| Affiliations.ApplySingle | srcORCID_v01.py:149-158 | a container read as a single group is that group's update and error |
| Affiliations.FailureStops | srcORCID_v01.py:139-148 | once a group raises, the later groups are not read |
| Affiliations.AffiliationIndex.constructor | srcORCID_v01.py:118 | `task1 = {}`: an empty, well-formed index |
| Affiliations.AffiliationIndex.Open | srcORCID_v01.py:143-144 | `task1[country] = []` for an unseen country, nothing otherwise |
| Affiliations.AffiliationIndex.Append | srcORCID_v01.py:145 | appending a name not yet listed records the pair |
| Affiliations.AffiliationIndex.AddGroup | srcORCID_v01.py:140-148 | one group updates the index by `ApplyGroup` of its reading and reports that reading's error |
| Affiliations.AffiliationIndex.AddGroupAt | srcORCID_v01.py:139-148 | after a prefix of groups that read cleanly, one more group either keeps the reading clean or ends it with the error and index of reading all groups |
| Affiliations.AffiliationIndex.AddGroups | srcORCID_v01.py:139-148 | the loop over a container's keys updates the index by `Apply` of `ReadGroups` of its groups and stops at the first error |
| Affiliations.AffiliationIndex.AddSection | srcORCID_v01.py:133-158 | a section updates the index by `Apply` of `ReadSection`: skipped when absent or without `affiliation-group`, one group when `last-modified-date` is present, every key's group otherwise |
| Affiliations.AffiliationIndex.AddDocument | srcORCID_v01.py:132-187 | one document updates the index by `Apply` of `Affiliations(doc)`: educations, then employments unless educations raised |
| Report.FormatInstitutions | srcORCID_v01.py:192 | the cell holds no '"', is no longer than the joined names, is empty for no names, and is exactly the names joined with ", " when no name holds a quote |
| Report.FormatUnquoted | srcORCID_v01.py:192 | removing quotes from the joined names is joining the unquoted names |
| Report.FormatSplit | srcORCID_v01.py:192 | for names free of ',' and '"', splitting a row's cell at ',' gives the names back, each after the first behind one space |
| Report.JoinWithSplit | srcORCID_v01.py:192 | the same before quote removal |
| Report.ReportRows | srcORCID_v01.py:188-192 | no rows exactly when `task1` is empty; otherwise one row per country in insertion order, holding the country and its formatted names |
| Scenarios.SingleGroup | srcORCID_v01.py:149-158 | a container holding `last-modified-date` is read as one group, and a fresh index gains `country -> [name]` |
| Scenarios.TwoGroups | srcORCID_v01.py:138-148 | a container keyed "0", "1" is read group by group in order, and a fresh index gains `country -> [name1, name2]` |

## Left out

- Reading the directories, the `.xml` filter, opening files and `print` are
  filesystem I/O. The per-file loop that chains `ExtractInformation` and
  `AddDocument` over the files of a folder is left out with them (lines
  119-132).
- `xmltodict.parse` is a foreign library. Its output is taken as a given tree,
  and the XML-to-tree conversion is not part of this model.
- The MongoDB client and collection, `create_researchers_list` and the module
  constants set up a database that nothing is ever written to.
- `pd.DataFrame` and `to_csv` write the report file. Only the rows they receive
  are modelled (`Report.ReportRows`).
- Normaliser.CleanLevel: requires that every level the cleaner visits has
  non-empty cleaned keys with no two the same (`Cleanable`). Otherwise the
  source crashes with IndexError on `key_one_clean[0]` for a key such as
  `"a:"`, or can end with KeyError or a lost entry when two keys clean to the
  same name (`"x:@b"` then `"@b"`). Those paths are not modelled.
- Normaliser.CleanDictNames: requires distinct cleaned keys at the top level,
  and `Cleanable` for every dict value (`TopCleanable`), for the same reason.
  The top-level loop never reads `key_one_clean[0]`, so empty cleaned keys are
  allowed there.
- Extractor.ExtractInformation: requires `Cleanable` of each of the two
  subtrees that is a dict, but only when the cleaner is reached, that is, for a
  dict wrapper holding both subtrees whose person has a readable `@path`
  (`Normalisable`). Documents of any other shape, and the errors raised before
  cleaning, are unconstrained.
- Affiliations.AffiliationIndex.AddGroup and Affiliations.ReadGroupSpec: a
  country that is `None`, or a name that is not text, is the error `NotText`,
  and the collector stops there. In Python a `None` country is stored as the
  key `None`, later groups go on being read, and the report gets a row with an
  empty Country cell. A name that is not
  text is stored too, and only the report's `join` at line 192 fails on it. A
  country that is a dict or a list is a TypeError (unhashable), as in Python.
- Python exceptions are modelled as an error result when they propagate: `Err`
  from the extractor, the `err` out-parameter of the collector's methods. In
  the source an exception ends the whole run.
- In-place mutation through aliases is not modelled. The extractor's
  `researcher_data` shares its subtrees with the parsed document, so the source
  also cleans the caller's `xml_dict`. The cleaner methods return the new
  entries instead of mutating a shared dict.
- Text.StripQuotes and Report.FormatInstitutions work on characters. Strings
  have no encoding or Unicode normalisation here.
