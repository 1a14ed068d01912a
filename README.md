# dex data-file discovery and sampling, in Dafny

This project models the two functions of the dex web application that build
the data-entity catalogue shown on its landing page:

- `get_data_entity_list` walks the CSV root directory. It keeps a path only
  when it is a regular file, its pathlib suffix is empty and the CSV check
  accepts it. It then matches the root-relative POSIX path against
  `([^.]*).(\d+).(\d+).([0-9a-f]{32})$` with `re.match` and builds one record
  per match: absolute path, scope, id, version, entity, size and an empty
  status. Finally it sorts the records by size, largest first.
- `get_sample_data_entity_list` takes that catalogue and a sample size `k`
  (200 by default). When the catalogue holds at least `k` records, it draws `k`
  of them at random without replacement and sorts the draw by size. Otherwise
  it returns the catalogue as it is.

Modules:

- `Wrappers` holds the `Option` and `Result` types.
- `PathPattern` models the regular expression as Python's backtracking
  matcher would run it:
  - the three dots are unescaped, so each matches any character except a
    newline;
  - `[^.]` matches a newline;
  - `$` also matches before one final newline.

  A declarative predicate, `Splits`, says what a match is. `MatchSplit`
  searches the splits in the order backtracking tries them, and its contract
  says it returns the first one.
- `PurePath` models `PurePath.name` and `PurePath.suffix`.
- `Records` holds the record type.
- `SizeOrder` holds the stable sort by size, largest first, and its
  stability and uniqueness.
- `Discovery` holds the walk loop as a method with a loop invariant, proved
  against the specification function `Collect`.
- `Sampling` holds the bounded sample.

A file is discovered exactly when it is a regular file accepted by the CSV
check, the final component of its path has an empty pathlib suffix, and its
root-relative path fits the pattern (`Discovery.Candidate`).

A flat file name such as `foo.1.2.<32 hex>` is skipped, whatever directory it
is in. pathlib gives such a name the non-empty suffix `.<32 hex>`, and the
suffix filter drops the file before the pattern is tried
(`Discovery.DottedFileNameSkipped`, `Discovery.FlatNamesNotDiscovered`).

The three dots of the pattern are unescaped, so each matches any character
except a newline, `/` included. One layout that is therefore discovered is
`scope/id/ver/<32 hex>`. There the greedy scope
group reads `edi/123/4/<hex>` as scope `edi/1`, id `3` and version `4`
(`PathPattern.DirectoryLayoutGroups`, `Discovery.DirectoryLayoutDiscovered`).
Other paths are discovered too, as long as the final component has no suffix
and the whole relative path fits the pattern (`PathPattern.AssembledPathMatches`).

## Model

| member | source | states |
|---|---|---|
| PathPattern.LeadingNonDots | webapp/main.py:125 | the greedy `[^.]*` at the start of the path stops at the first dot or at the end; everything before is dot-free |
| PathPattern.DigitRun | webapp/main.py:126-127 | a greedy `\d+` takes digits only and stops before the first non-digit or at the end |
| PathPattern.TryVer | webapp/main.py:127-129 | with scope and id fixed, backtracking over the version length finds the longest version that lets the rest match, and no longer version matches |
| PathPattern.TryIdAt | webapp/main.py:126-129 | for one id length, the search returns the match with the longest version, or none when no version length fits |
| PathPattern.TryId | webapp/main.py:126-129 | with the scope fixed, the search returns a match with the longest possible id (and the longest version for it), or none when no id and version lengths match |
| PathPattern.TryScope | webapp/main.py:125-129 | giving back scope characters one by one finds the match with the longest scope no longer than the start, or none when no such match exists |
| PathPattern.TryScopeAt | webapp/main.py:125-129 | for one scope length, the search returns the first match in backtracking order with that scope, or none when no id and version fit |
| PathPattern.MatchSplit | webapp/main.py:124-130 | the result is a match of the pattern, and no match comes before it in backtracking order; None exactly when the pattern cannot match |
| PathPattern.FieldsAt | webapp/main.py:133 | the groups read at a match have the lengths of that match, a dot-free scope, non-empty digit id and version, and a 32-character lowercase hex entity |
| PathPattern.Match | webapp/main.py:124-133 | every group set returned has a dot-free scope, non-empty digit id and version, and a 32-character lowercase hex entity |
| PathPattern.MatchIffSomeSplit | webapp/main.py:124-132 | `re.match` succeeds exactly when some split of the path fits the pattern |
| PathPattern.MatchPrefersLongerGroups | webapp/main.py:124-130 | among all splits that fit, the one kept has the longest scope, and for that scope the longest id |
| PathPattern.MatchRoundTrip | webapp/main.py:124-130 | the path is scope, separator, id, separator, version, separator, entity, then nothing or one newline; the separators are any non-newline characters |
| PathPattern.MatchEntityIsPathEnd | webapp/main.py:128-129 | for a path without a trailing newline, the entity group is its last 32 characters |
| PathPattern.AssembledPathMatches | webapp/main.py:124-130 | every path assembled from well-formed groups and non-newline separators is matched, with a scope at least as long as the one used |
| PathPattern.DirectoryLayoutGroups | webapp/main.py:124-130 | `edi/123/4/<hex>` is matched with groups `edi/1`, `3`, `4`, not with the `edi`, `123`, `4` it was built from |
| PurePath.Name | webapp/main.py:119 | the name is a tail of the path without a `/`, and the character before it, if any, is a `/`: the longest such tail |
| PurePath.RFind | webapp/main.py:119 | rfind gives an occurrence of the character with none after it, or -1 when there is none |
| PurePath.Suffix | webapp/main.py:119 | the suffix is empty exactly when the name ends with a dot or has no dot after its first character; otherwise it is a proper tail of the name of two or more characters that starts with its last dot |
| PurePath.DottedNameHasSuffix | webapp/main.py:119 | a file name `scope.id.ver.entity` has the suffix `.entity`, whatever directory it is in |
| PurePath.NameAfterSlash | webapp/main.py:119 | the name of `dir/name` is `name` when `name` holds no `/` |
| SizeOrder.InsertBySize | webapp/main.py:145 | inserting into a size-ordered list keeps it ordered, adds exactly the new record, and grows it by one |
| SizeOrder.SortBySizeDesc | webapp/main.py:145 | the sort's output is ordered by size, largest first, and is a permutation of its input |
| SizeOrder.SortKeepsMembers | webapp/main.py:145 | a record is in the sorted list exactly when it is in the input |
| SizeOrder.InsertIsStable | webapp/main.py:145 | inserting a record keeps the order of the records of each size and puts it after the records of its own size |
| SizeOrder.SortIsStable | webapp/main.py:145 | for every size, the records of that size leave the sort in the order they entered it |
| SizeOrder.SizeOrderIsUnique | webapp/main.py:145 | two size-ordered lists with the same records of each size in the same order are equal, so the stable sort's result is determined |
| Discovery.Accepted | webapp/main.py:118-122 | an entry passes the filters exactly when it is a regular file, the CSV check accepts it, and its name ends with a dot or has no dot after its first character |
| Discovery.Candidate | webapp/main.py:118-143 | an entry yields a record exactly when it passes the three filters and its path matches; the record holds the match's groups, the entry's absolute path and size, and an empty status, and is well formed |
| Discovery.CandidateOfMatch | webapp/main.py:131-143 | an accepted entry whose path matches yields the record built from the match's groups, its own path and size, and an empty status |
| Discovery.SkippedEntryYieldsNothing | webapp/main.py:118-132 | an entry that fails a filter or the pattern yields no record |
| Discovery.Collect | webapp/main.py:117-143 | the list the loop accumulates holds at most one record per entry, each well formed and with an empty status |
| Discovery.DiscoverDataEntities | webapp/main.py:115-145 | the loop with its filters and appends, then the sort, yields the stable size-ordered permutation of the collected records, all well formed |
| Discovery.DiscoveredFromSomeEntry | webapp/main.py:117-145 | every discovered record is the record of some entry of the walk |
| Discovery.DiscoveredRecordOrigin | webapp/main.py:117-145 | every discovered record comes from an accepted entry whose path matched; its groups are that match's, and its path, size and empty status are that entry's |
| Discovery.SkippedEntryNotDiscovered | webapp/main.py:118-132 | an entry that is not a file, has a suffix, fails the CSV check or does not match gives no record, and discovery does not fail on it |
| Discovery.DottedFileNameSkipped | webapp/main.py:118-122 | a file named `scope.id.ver.entity` is skipped whatever its path, size or content |
| Discovery.DottedPairNotDiscovered | webapp/main.py:118-122 | two files whose names have the form `scope.id.ver.entity`, each in any directory and with its own entity, are both skipped: discovery returns an empty list |
| Discovery.SuffixedEntriesNotDiscovered | webapp/main.py:118-122 | a walk whose every entry has a suffix collects nothing |
| Discovery.FlatNamesNotDiscovered | webapp/main.py:115-145 | root files `foo.1.2.<hex>` (10 bytes) and `bar.3.4.<hex>` (5 bytes) are both skipped: discovery returns an empty list |
| Discovery.DirectoryLayoutDiscovered | webapp/main.py:117-145 | the file `edi/123/4/<hex>` is discovered as scope `edi/1`, id `3`, version `4`, with its own absolute path and size; the sorted list discovery returns is that one record |
| Sampling.Pick | webapp/main.py:110 | the draw picks one element per drawn position, in draw order |
| Sampling.PickIsSubMultiset | webapp/main.py:110 | a draw without replacement picks no record more often than it occurs in the catalogue |
| Sampling.SampleDataEntities | webapp/main.py:107-111 | a negative k fails; a catalogue shorter than k is returned unchanged; otherwise (k equal to the length included) the result has exactly k records, is a sub-multiset of the catalogue and is size-ordered |
| Sampling.DefaultSampleIsBounded | webapp/main.py:107-111 | with the default size 200 the call succeeds and returns 200 records; a catalogue of fewer records comes back unchanged |
| Sampling.FullSampleIsPermutation | webapp/main.py:109-110 | a sample as large as the catalogue holds every record of it |
| Sampling.SampleHasNoRepeats | webapp/main.py:110 | records that are distinct in the catalogue are distinct in any sample |
| Sampling.SampleDataEntityList | webapp/main.py:107-111 | sampling the discovered catalogue fails exactly when k is negative; a successful result is size-ordered and its records are well formed |

## Left out

- Flask application setup, blueprints, request hooks, the redirect handler and the registering routes: these are framework wiring with no logic of their own.
- The on-disk cache decorator on both functions, and the unused `_rid` argument: the cache is outside this code, and the model computes the value the cache would store.
- The directory walk, `is_file` and `stat().st_size` are I/O. Their answers, together with the results of the pure path operations `relative_to` and `as_posix`, are taken as inputs: a sequence of entries in walk order, each holding its relative and absolute POSIX paths as strings.
- The CSV check `dex.csv_cache.is_csv` is a foreign call. It is a boolean per entry.
- The randomness of `random.sample`. The positions it picks are a parameter, the draw: any `k` distinct positions of the catalogue. Which draws are likely is not modelled.
- PathPattern.DigitRun: `\d` is taken as the ASCII digits `0`-`9`. Python's `str` patterns also accept the other Unicode decimal digits.
- PurePath.Suffix: follows the rule under which a name ending in a dot has no suffix. Python releases that changed this corner case are not modelled.
- Errors from the filesystem (a file that vanishes between the walk and `stat`) are not modelled: they propagate as exceptions in the source.
