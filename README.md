# json_spectacular: the eql_json matcher and its diff descriptions

json_spectacular gives RSpec an `eql_json` matcher for the Ruby form of
parsed JSON bodies (nil, booleans, numbers, Strings, Arrays, Hashes). When the
actual value differs from the expected one, the failure message has three
parts: the full expected value, the full actual value, and a list of
differences. Each difference is a block naming the path of one differing
node (`a.b`, `a[1].c`), then its expected and actual values. The blocks come
from a recursive engine in the `DiffDescriptions` mixin:

1. Ask Hashdiff for the flat `[operator, path, value]` triples of
   (actual, expected). Sort them by path. Gather them into one group per path,
   with one slot per operator (`+`, `-`, `~`).
2. For each group, resolve the missing side, the extra side and the changed
   value. A side that is absent from the group is looked up with
   `value_at_path`.
3. Two non-empty Hashes: descend. Two Arrays with a truthy element: descend
   into the elements pairwise, under the same path. Otherwise append one
   block through `append_to_message`. That method drops a block whose path has
   already been reported.

The model has six modules, following the program's structure:

- `Json`: the value type, plus `Option` and `Outcome` (a value, or `Raised`
  for a Ruby exception the engine does not rescue).
- `RubyText`: `String#to_i` and `Integer#to_s`, as far as the engine relies
  on them.
- `ValuePath`: `value_at_path`. String#split on `[`, `]` and `.`, the `to_i`
  rule that tells an index from a key, and Ruby's `[]` on each kind of value.
  The loop is a method proved against the function `ValueAt`.
- `Grouping`: `sort_by { |a| a[1] }` and the `each_with_object` grouping.
  The grouping loop is a method proved against the function `Grouped`.
- `DiffDescriptions`: the engine as functions, in two parts.
  - `DiffTrace` gives the blocks one run offers to `append_to_message`, in
    order, and whether it raised. It does not depend on the matcher's state.
  - `Emit` gives what `append_to_message` makes of those blocks.
  - `DiffRun` is the engine run directly on the two fields. `DiffRunPlays`
    proves it equal to emitting `DiffTrace`'s blocks.
- `Matching`: the class `Matcher`.
  - Fields `expected`, `actual`, `message` and `reportedDifferences`.
  - Its methods are `initialize`, `matches?`, `failure_message`,
    `diffable?`, and the mixin's state-changing methods, which
    `include DiffDescriptions` makes instance methods.
  - Each method's `ensures` ties the new fields to `DiffRun`, `GroupRun` or
    `Append` of the old fields.

Where the documentation and the code disagree, the model follows the code:

- The `~` entry keeps the third element of its Hashdiff triple
  (`operator, name, value = diff`). That is the old value, from the actual
  side, not the new one.
- `non_empty_array?` is `Array#any?`. It holds when the Array has an element
  other than nil and false. An Array of nils is not descended into.
- The array branch passes `full_path` unchanged to every element. So all
  elements are compared under the same path, and deduplication keeps only
  the first block at an attribute.
- A Hash key that is a decimal numeral, such as `"3"`, cannot be reached by
  `value_at_path`. It becomes an integer segment, and a Hash with String keys
  has no integer key.

## Model

| member | source | states |
|---|---|---|
| RubyText.SkipSpace | lib/json_spectacular/diff_descriptions.rb:108 | `to_i` first skips white space: the result is no longer and does not start with white space |
| RubyText.SkipSpaceSuffix | lib/json_spectacular/diff_descriptions.rb:108 | what is skipped is a prefix made only of white space, and the rest is kept unchanged |
| RubyText.DigitRun | lib/json_spectacular/diff_descriptions.rb:108 | the digits `to_i` reads are decimal digits only, and are empty exactly when the text does not start with a digit |
| RubyText.NatToString | lib/json_spectacular/diff_descriptions.rb:127-128 | an Integer is written as decimal digits without a leading zero, except 0 itself |
| RubyText.NatToStringToI | lib/json_spectacular/diff_descriptions.rb:108 | `to_i` reads a natural number's decimal text back as that number |
| RubyText.IntToStringToI | lib/json_spectacular/diff_descriptions.rb:108 | `Integer#to_s` and `String#to_i` are inverse on every integer, negative ones included |
| RubyText.DecimalValueOfNatToString | lib/json_spectacular/diff_descriptions.rb:108 | the digits of n denote n |
| ValuePath.ParseSegment | lib/json_spectacular/diff_descriptions.rb:107-113 | a piece becomes an index exactly when its `to_i` is nonzero or it is `"0"`; an index carries the `to_i` value; a key keeps the piece unchanged |
| ValuePath.ParseAllPieces | lib/json_spectacular/diff_descriptions.rb:107-113 | `keys.map` parses every piece on its own, in order |
| ValuePath.DropTrailingEmptyPrefix | lib/json_spectacular/diff_descriptions.rb:105 | `split` keeps a prefix of the pieces, dropping only trailing empty ones |
| ValuePath.PiecesAround | lib/json_spectacular/diff_descriptions.rb:105 | a delimiter separates the pieces on its left from those on its right |
| ValuePath.PiecesOfPlain | lib/json_spectacular/diff_descriptions.rb:105 | text without a delimiter is a single piece |
| ValuePath.RubyIndex | lib/json_spectacular/diff_descriptions.rb:118 | Ruby's index rule for `result[key]`: a non-negative index in range picks that position, and any position it yields lies inside the sequence |
| ValuePath.NavigateStep | lib/json_spectacular/diff_descriptions.rb:117-119 | unfolding helper for the proofs; one step of the walk: an empty key is skipped, any other key applies `[]` |
| ValuePath.ValueAtPath | lib/json_spectacular/diff_descriptions.rb:104-122 | the loop that reassigns `result` returns exactly `ValueAt`, and raises exactly when a step raises |
| ValuePath.NavigateConcat | lib/json_spectacular/diff_descriptions.rb:115-121 | walking two runs of segments is walking the first, then the second from where it ended |
| ValuePath.NavigateEmptyKeys | lib/json_spectacular/diff_descriptions.rb:117-119 | a walk over empty keys only returns the value it started from |
| ValuePath.ValueAtPieces | lib/json_spectacular/diff_descriptions.rb:104-122 | the trailing empty pieces that `split` drops make no difference to the result |
| ValuePath.DelimitersOnly | lib/json_spectacular/diff_descriptions.rb:104-122 | the empty path, or one made only of delimiters, returns the target itself |
| ValuePath.ValueAtJoined | lib/json_spectacular/diff_descriptions.rb:104-122 | resolving `p` + delimiter + `q` resolves `p`, then `q` inside the result |
| ValuePath.KeyPath | lib/json_spectacular/diff_descriptions.rb:104-122 | a plain key looks that key up in a Hash, giving nil when it is absent |
| ValuePath.IndexPath | lib/json_spectacular/diff_descriptions.rb:104-122 | `"[i]"` picks element i of an Array |
| ValuePath.IndexSegmentRoundTrip | lib/json_spectacular/diff_descriptions.rb:107-113 | the decimal text of an index, `"0"` included, parses back as that index |
| ValuePath.EmptyPieceIsEmptyKey | lib/json_spectacular/diff_descriptions.rb:108-109 | the empty piece stays the empty key, which the walk skips |
| ValuePath.LeadingZeroWordIsKey | lib/json_spectacular/diff_descriptions.rb:108-109 | `"0abc"` stays a key, because its `to_i` is 0 and it is not `"0"` |
| ValuePath.DoubleZeroIsKey | lib/json_spectacular/diff_descriptions.rb:108-109 | `"00"` stays a key |
| ValuePath.NumberPrefixIsIndex | lib/json_spectacular/diff_descriptions.rb:108-111 | `"12abc"` becomes index 12 |
| ValuePath.NumeralKeyUnreachable | lib/json_spectacular/diff_descriptions.rb:107-119 | a Hash key that is a decimal numeral resolves to nil, because the segment becomes an integer |
| Grouping.NameLeqReflexive | lib/json_spectacular/diff_descriptions.rb:28 | the order of names that `sort_by` uses is reflexive |
| Grouping.NameLeqTotal | lib/json_spectacular/diff_descriptions.rb:28 | the order of names is total |
| Grouping.NameLeqTransitive | lib/json_spectacular/diff_descriptions.rb:28 | the order of names is transitive |
| Grouping.NameLeqAntisymmetric | lib/json_spectacular/diff_descriptions.rb:28 | the order of names is antisymmetric |
| Grouping.InsertPermutes | lib/json_spectacular/diff_descriptions.rb:26-28 | one insertion step adds its triple and keeps every other one |
| Grouping.InsertSorted | lib/json_spectacular/diff_descriptions.rb:26-28 | one insertion step keeps the triples ordered by name |
| Grouping.SortByName | lib/json_spectacular/diff_descriptions.rb:26-28 | `sort_by` returns as many triples as Hashdiff gave (SortSorted, SortPermutes and SortStable state the rest) |
| Grouping.SortSorted | lib/json_spectacular/diff_descriptions.rb:26-28 | the sorted triples are in ascending order of name |
| Grouping.SortPermutes | lib/json_spectacular/diff_descriptions.rb:26-28 | the sorted triples are a permutation of Hashdiff's triples |
| Grouping.SortStable | lib/json_spectacular/diff_descriptions.rb:26-28 | the triples of each name keep Hashdiff's relative order |
| Grouping.SetSlot | lib/json_spectacular/diff_descriptions.rb:34 | `memo[name][operator] = value` sets that operator's slot and keeps the other two |
| Grouping.Grouped | lib/json_spectacular/diff_descriptions.rb:30-35 | the Hash being built never has more keys than there are triples (GroupedKeys, GroupedSlots and GroupedDistinct state the rest) |
| Grouping.GroupByName | lib/json_spectacular/diff_descriptions.rb:30-35 | the `each_with_object` loop builds exactly `Grouped` of the sorted triples |
| Grouping.GroupedKeys | lib/json_spectacular/diff_descriptions.rb:30-35 | every listed name has a group, every group is listed, and the groups are exactly the names of the triples |
| Grouping.GroupedSlots | lib/json_spectacular/diff_descriptions.rb:33-34 | in a name's group, the slot of each operator holds the value of the last triple with that name and operator |
| Grouping.GroupedDistinct | lib/json_spectacular/diff_descriptions.rb:33 | no name is listed twice |
| Grouping.GroupedAscending | lib/json_spectacular/diff_descriptions.rb:30-35 | when the triples are sorted, the groups are listed in ascending order of name |
| Grouping.LastValueNamed | lib/json_spectacular/diff_descriptions.rb:34 | the value a slot ends with depends only on the triples of that name |
| Grouping.SortedGroups | lib/json_spectacular/diff_descriptions.rb:26-35 | sorting then grouping gives each name of the triples once, in ascending order, and in every slot the value of Hashdiff's last triple with that name and operator |
| DiffDescriptions.FormatValue | lib/json_spectacular/diff_descriptions.rb:131-137 | a String comes back wrapped in single quotes, which strip off to give it back; any other value comes back unchanged |
| DiffDescriptions.GetDiffLayout | lib/json_spectacular/diff_descriptions.rb:124-129 | a block starts with its attribute on a line of its own and ends with a blank line |
| DiffDescriptions.QuotedString | lib/json_spectacular/diff_descriptions.rb:127-128 | a String value is shown as `'x'` in a block |
| DiffDescriptions.IntegerReadsBack | lib/json_spectacular/diff_descriptions.rb:127-128 | an Integer is shown unquoted, in decimal, and `to_i` reads that text back as the Integer |
| DiffDescriptions.MinusTwelve | lib/json_spectacular/diff_descriptions.rb:127-128 | -12 is shown as `-12` |
| DiffDescriptions.FullPathResolves | lib/json_spectacular/diff_descriptions.rb:54 | under a non-empty prefix, the full path resolves the prefix, then the name inside it; at the root it is the name |
| DiffDescriptions.OrValueAt | lib/json_spectacular/diff_descriptions.rb:71-72 | the `or` of a slot and `value_at_path`: a truthy slot is used as it is, and only a missing, nil or false slot triggers the lookup |
| DiffDescriptions.ResolveChanges | lib/json_spectacular/diff_descriptions.rb:70-76 | the missing side comes from `-` or the actual value, the extra side from `+` or the expected value, and the changed value from `~` or nil; it raises exactly when a lookup it needs raises |
| DiffDescriptions.HashdiffGroups | lib/json_spectacular/diff_descriptions.rb:26-35 | every name the loop visits has its group |
| DiffDescriptions.EmitConcat | lib/json_spectacular/diff_descriptions.rb:93-98 | appending two runs of blocks is appending their concatenation |
| DiffDescriptions.EmitFresh | lib/json_spectacular/diff_descriptions.rb:93-98 | `@message` grows by exactly the texts of the first block of each not-yet-reported attribute, in order; every offered attribute becomes reported |
| DiffDescriptions.EmitMessage | lib/json_spectacular/diff_descriptions.rb:93-98 | over any sequence of offered blocks, `@message` ends as the old message followed by the texts of the first block of each attribute not reported before, in order |
| DiffDescriptions.EmitReported | lib/json_spectacular/diff_descriptions.rb:93-98 | over any sequence of offered blocks, the reported attributes end as the old ones plus every offered attribute, whether its text was appended or not |
| DiffDescriptions.FreshFirstOccurrences | lib/json_spectacular/diff_descriptions.rb:94-97 | no attribute is appended twice; none that was already reported is appended; every other offered attribute keeps one block |
| DiffDescriptions.EmitCovered | lib/json_spectacular/diff_descriptions.rb:94 | blocks whose attributes are all reported change nothing |
| DiffDescriptions.EmitIdempotent | lib/json_spectacular/diff_descriptions.rb:93-98 | offering the same blocks a second time appends nothing |
| DiffDescriptions.EmitOne | lib/json_spectacular/diff_descriptions.rb:93-98 | appending a one-block run is one `append_to_message` call |
| DiffDescriptions.GroupRunCases | lib/json_spectacular/diff_descriptions.rb:44-68 | unfolding helper for the proofs; the four cases of `resolve_and_append_diff_to`, in priority order, each with its effect on the fields; a raising lookup leaves the fields unchanged |
| DiffDescriptions.DiffRunPlays | lib/json_spectacular/diff_descriptions.rb:25-68 | a run on the fields appends, through `append_to_message`, exactly the blocks `DiffTrace` offers, and raises exactly when it does |
| DiffDescriptions.GroupedRunPlays | lib/json_spectacular/diff_descriptions.rb:25-42 | the same, for a run with at least one level of depth left |
| DiffDescriptions.DiffRunGroups | lib/json_spectacular/diff_descriptions.rb:25-42 | unfolding helper for the proofs; one level of `add_diff_to_message` is the loop over the sorted, grouped Hashdiff triples |
| DiffDescriptions.DiffTraceGroups | lib/json_spectacular/diff_descriptions.rb:25-42 | unfolding helper for the proofs; one level of the blocks offered is the loop over the sorted, grouped Hashdiff triples |
| DiffDescriptions.GroupsRunPlays | lib/json_spectacular/diff_descriptions.rb:37-41 | the loop over the groups appends the blocks of each group in turn and stops at the first group that raises |
| DiffDescriptions.GroupRunPlays | lib/json_spectacular/diff_descriptions.rb:44-68 | one group appends the blocks it offers |
| DiffDescriptions.CaseRunPlays | lib/json_spectacular/diff_descriptions.rb:56-67 | each of the four cases appends the blocks it offers |
| DiffDescriptions.ElementsRunPlays | lib/json_spectacular/diff_descriptions.rb:59-61 | the `times` loop appends each element's blocks in turn and stops at the first element that raises |
| DiffDescriptions.PlayedThen | lib/json_spectacular/diff_descriptions.rb:37-41 | running one part, then the next unless the first raised, appends the two parts' blocks in order |
| DiffDescriptions.BelowFullPath | lib/json_spectacular/diff_descriptions.rb:54 | what lies at or under `path.name` lies under `path` |
| DiffDescriptions.AllBelowThen | lib/json_spectacular/diff_descriptions.rb:37-41 | two runs whose blocks all lie under a prefix make a run whose blocks all lie under it |
| DiffDescriptions.DiffTraceBelow | lib/json_spectacular/diff_descriptions.rb:25-68 | every block offered by a run at a non-empty path lies strictly under that path |
| DiffDescriptions.GroupsTraceBelow | lib/json_spectacular/diff_descriptions.rb:37-41 | every block the loop over the groups offers lies under the loop's path |
| DiffDescriptions.GroupTraceWithin | lib/json_spectacular/diff_descriptions.rb:44-68 | every block a group offers lies at or under the group's full path |
| DiffDescriptions.ElementsTraceBelow | lib/json_spectacular/diff_descriptions.rb:59-61 | every block of the element loop lies under the shared full path |
| DiffDescriptions.ReportCase | lib/json_spectacular/diff_descriptions.rb:62-66 | a group that does not descend offers exactly one block at its full path: the re-resolved expected value against the `~` value, or else the extra side against the missing side; with a `~` entry it raises exactly when re-resolving raises |
| DiffDescriptions.NonEmptyShapes | lib/json_spectacular/diff_descriptions.rb:85-91 | `non_empty_hash?` holds exactly for a Hash with an entry; `non_empty_array?` needs an Array with an element other than nil and false, so `[nil, false]` fails it; no value passes both |
| DiffDescriptions.NoDescentIntoEmpty | lib/json_spectacular/diff_descriptions.rb:56-58 | an empty Hash, or an Array without a truthy element, on either side never descends |
| DiffDescriptions.DescendCase | lib/json_spectacular/diff_descriptions.rb:56-61 | a group that descends offers no block at its own full path, only blocks strictly under it |
| DiffDescriptions.NoTriplesNothing | lib/json_spectacular/diff_descriptions.rb:26-41 | when Hashdiff reports no triples, a run offers nothing and does not raise |
| DiffDescriptions.ElementsShareAttribute | lib/json_spectacular/diff_descriptions.rb:58-61 | when every element pair offers one block at the same attribute, the element loop offers one block per element, all at that attribute, and deduplication keeps at most one |
| DiffDescriptions.SingleBlockElementsTrace | lib/json_spectacular/diff_descriptions.rb:59-61 | the element loop does not raise and offers one block per element, all at the shared attribute |
| DiffDescriptions.SameAttributeFresh | lib/json_spectacular/diff_descriptions.rb:94-97 | blocks that all share one attribute leave at most one block after deduplication |
| DiffDescriptions.FreshAllSeen | lib/json_spectacular/diff_descriptions.rb:94 | blocks at an attribute already reported are all dropped |
| Matching.HeaderSteps | lib/json_spectacular/matcher.rb:58-60 | unfolding helper for the proofs; the three `+=` append the header: expected value, actual value, then "Differences" |
| Matching.FirstFailure | lib/json_spectacular/matcher.rb:57-65 | on fresh fields the message is the header followed by the first block of each attribute, in the order the engine offers them; no attribute appears twice; every offered attribute ends up reported; it raises exactly when the engine does |
| Matching.NoDifferencesHeaderOnly | lib/json_spectacular/matcher.rb:57-65 | when Hashdiff finds no difference, the message gains exactly the header |
| Matching.RepeatedFailure | lib/json_spectacular/matcher.rb:57-65 | calling `failure_message` a second time appends the header again and nothing else |
| Matching.Matcher.constructor | lib/json_spectacular/matcher.rb:28-32 | stores the expected value; the message is empty, nothing is reported, and the actual value is nil |
| Matching.Matcher.Diffable | lib/json_spectacular/matcher.rb:38-40 | always false |
| Matching.Matcher.Matches | lib/json_spectacular/matcher.rb:46-49 | records the actual value, and answers true exactly when it equals the expected value |
| Matching.Matcher.FailureMessage | lib/json_spectacular/matcher.rb:57-65 | the new fields are the header plus the engine run on (actual, expected) at the root path; returns the message, or `Raised` when the engine raises |
| Matching.Matcher.AlreadyReportedDifference | lib/json_spectacular/diff_descriptions.rb:100-102 | true exactly when the attribute is a key of `@reported_differences` |
| Matching.Matcher.AppendToMessage | lib/json_spectacular/diff_descriptions.rb:93-98 | a reported attribute changes nothing; otherwise the description is appended and the attribute reported |
| Matching.Matcher.AppendDiffToMessage | lib/json_spectacular/diff_descriptions.rb:78-83 | appends the `get_diff` block for the path, with the same deduplication |
| Matching.Matcher.AddDiffToMessage | lib/json_spectacular/diff_descriptions.rb:25-42 | sorts and groups Hashdiff's triples, resolves each group in turn, and ends with the fields `DiffRun` gives; it raises exactly when `DiffRun` does |
| Matching.Matcher.ResolveAndAppendDiffTo | lib/json_spectacular/diff_descriptions.rb:44-68 | resolves the group and takes the first case that applies; the new fields are those `GroupRun` gives, and the Array case loops over the elements under the same full path |

## Left out

- Hashdiff's diff algorithm is not modelled. `Deps.hashdiff` is a parameter
  that returns (actual, expected) triples. Every lemma holds for any triples
  it returns.
- The text `#{}` gives for an Array or a Hash (Ruby's `inspect`) is the
  parameter `Deps.inspect`. nil, booleans, Integers and Strings are written
  out.
- `JObj` is an unordered `map`, so the model loses a Ruby Hash's insertion
  order. Ruby's `inspect` shows that order in the header (matcher.rb:58-59)
  and in Hash-valued blocks. In the model, `Deps.inspect` sees only the map.
- Floats are not modelled. Numbers are integers.
- `lib/json_spectacular/rspec.rb` is not part of this model. `json_response`
  reads an HTTP body and calls `JSON.parse`; `eql_json` only wraps
  `Matcher.new`.
- A Ruby exception (NoMethodError, TypeError) inside the engine is an
  outcome, `Raised`, not an exception. The fields keep what was appended
  before it.
- Matching.Matcher.AddDiffToMessage: the recursion takes an explicit `depth`
  bound, and at depth 0 nothing is offered. The model agrees with Ruby only at
  depths where no branch reaches depth 0. No such bound is proved: `Deps.hashdiff`
  is arbitrary, so it may return triples whose values are no smaller than the
  compared ones. Ruby's unbounded recursion in that case, and the
  SystemStackError it ends in, are not modelled.
- Grouping.SortStable: the model sorts stably. Ruby's `sort_by` does not
  promise stability. The order can only matter when Hashdiff returns two
  triples with the same path and the same operator; the model then keeps the
  later one in Hashdiff's order.
- RubyText.DigitRun: `String#to_i` is modelled for base 10 only. The model
  covers white space, a sign, an optional `0d` prefix and single underscores
  between digits. Other radix prefixes do not arise in these paths.
- DiffDescriptions.ElementsShareAttribute: that each element pair offers one
  block at one attribute is a hypothesis of the lemma, not derived from
  Hashdiff's triples. Two differing scalars, which Hashdiff reports as one
  `~` at the root path, are such a case.
- `String#[]` with a String key, and `Integer#[]`, follow Ruby's rules in
  `ValuePath.Descend`. No property beyond `ValueAtPath` is stated about them.
