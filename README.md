# Worship attendance statistics — a Dafny model of `stat_calculator.py`

This project models the statistics core of the worship-team attendance tool.
The core takes a wide attendance sheet. Each row is one meeting instance:
a meeting name (`聚會名稱`), a month (`月份`), and role columns whose cells
list people separated by `/`. The core does two things:

- `clean_and_expand` reshapes the sheet into long-form attendance records of
  the form (person, meeting, month, role). Each cell piece is trimmed. Empty
  pieces, `"NaN"` and the "paused" marker `暫停` are dropped.
- `calculate_stats` builds two tables:
  - a person × month count table with a total column;
  - a per-person summary. It holds a meeting-type weighted score, an
    `早上飽` bonus of 2 per record, three special-role counters (`MD`,
    `Band Leader`, `Vocal Leader`), a role weight of 0.5 × the counter sum,
    and a grand total.

Modules:

- `Counting` (`counting.dfy`) — occurrence counts, sums, duplicate-free
  sequences and order-of-first-appearance `Distinct`. It also models a Python
  `Counter` as a `map<K, int>` read with a default of zero (`Get`, `Bump`).
- `Text` (`text.dfy`) — `str.strip()`, using the characters CPython's
  `str.isspace()` accepts; `str.split(sep)`; and the substring test
  `pat in s`.
- `Expander` (`expander.dfy`) — `clean_and_expand`. It is an imperative
  method with nested loops, proved against the specification function
  `Expand`.
- `Stats` (`stats.dfy`) — the meeting-type registry, the record loop that
  fills the five counters (an imperative method over maps), the cross-table,
  the summary with its derived columns, and `calculate_stats`.
- `Examples` (`examples.dfy`) — concrete cells and meeting names worked
  through the model, and the counterexample behind the finding below.

The registry is a parameter. `DefaultRegistry` holds the six types of the
source, with their weights and keywords, in the iteration order of the
keyword table. Source citations below are relative paths with line ranges.

Two behaviours of the code are kept as written:

- An empty record list fails at the person-column lookup (line 39), because
  an empty DataFrame has no columns. The model returns
  `Failure(MissingColumn("姓名"))` rather than empty tables.
- `"NaN"` is dropped along with the empty string and `暫停` (line 32).

## Model

| member | source | states |
|---|---|---|
| Text.Trim | WorshipStats_WebDeploy_Final/modules/stat_calculator.py:31 | the stripped name neither starts nor ends with white space |
| Text.TrimStrips | WorshipStats_WebDeploy_Final/modules/stat_calculator.py:31 | stripping removes only white space: the result is the input cut at a leading and a trailing run of white-space characters |
| Text.TrimIdempotent | WorshipStats_WebDeploy_Final/modules/stat_calculator.py:31 | stripping a stripped name changes nothing |
| Text.TrimPadded | WorshipStats_WebDeploy_Final/modules/stat_calculator.py:31 | a trimmed string padded with white space on either side strips back to itself |
| Text.Split | WorshipStats_WebDeploy_Final/modules/stat_calculator.py:30 | splitting on `/` gives one more piece than there are separators, and no piece holds a separator |
| Text.JoinSplit | WorshipStats_WebDeploy_Final/modules/stat_calculator.py:30 | the pieces joined back with `/` give the cell text back, so splitting loses no character |
| Text.SplitJoin | WorshipStats_WebDeploy_Final/modules/stat_calculator.py:30 | joining separator-free pieces with `/` and splitting again gives the same pieces |
| Text.ContainsIff | WorshipStats_WebDeploy_Final/modules/stat_calculator.py:56-66 | the substring test holds exactly when the pattern occurs at some index of the text |
| Expander.KeptNames | WorshipStats_WebDeploy_Final/modules/stat_calculator.py:30-32 | every surviving name is non-empty, not `NaN`, not `暫停`, and already stripped; no more names than pieces |
| Expander.KeptNamesComplete | WorshipStats_WebDeploy_Final/modules/stat_calculator.py:30-32 | every piece whose stripped form is non-empty, not `NaN` and not `暫停` contributes that stripped name |
| Expander.KeptNamesSound | WorshipStats_WebDeploy_Final/modules/stat_calculator.py:30-32 | every surviving name is the stripped form of one of the cell's `/`-pieces |
| Expander.KeptNamesCount | WorshipStats_WebDeploy_Final/modules/stat_calculator.py:30-34 | a cell yields as many names as it has pieces that pass the filter, counted independently index by index |
| Expander.KeptNamesMultiplicity | WorshipStats_WebDeploy_Final/modules/stat_calculator.py:30-34 | a name that passes the filter occurs once for every piece that strips to it, so `"A/A/B"` yields A twice; a string that fails the filter never occurs |
| Expander.KeptNamesEmpty | WorshipStats_WebDeploy_Final/modules/stat_calculator.py:30-32 | a cell yields no names exactly when every piece strips to the empty string, `NaN` or `暫停` |
| Expander.CleanAndExpand | WorshipStats_WebDeploy_Final/modules/stat_calculator.py:23-35 | the nested loops build exactly `Expand(rows)`; there is one record per surviving token, and every record is well formed |
| Expander.AppendCell | WorshipStats_WebDeploy_Final/modules/stat_calculator.py:27-34 | the loop over one cell's pieces appends exactly that cell's records after those already collected |
| Expander.ExpandCount | WorshipStats_WebDeploy_Final/modules/stat_calculator.py:25-34 | expansion cardinality: the number of records equals the number of `/`-pieces of present role cells whose stripped form is non-empty, not `NaN` and not `暫停`, counted piece by piece |
| Expander.CellMembership | WorshipStats_WebDeploy_Final/modules/stat_calculator.py:32-33 | a record comes from a cell exactly when its person is one of the cell's surviving names, its meeting and month are the row's, and its role is the cell's column |
| Expander.ExpandMembership | WorshipStats_WebDeploy_Final/modules/stat_calculator.py:25-34 | a record is in the expansion exactly when some cell of some row produces it |
| Expander.ExpandWellFormed | WorshipStats_WebDeploy_Final/modules/stat_calculator.py:27-33 | every record's person is stripped, non-empty and no sentinel, and its role is never the meeting-name or month column |
| Expander.SkippedCells | WorshipStats_WebDeploy_Final/modules/stat_calculator.py:27-29 | a missing cell, or the meeting-name or month column, yields no record |
| Expander.SentinelCell | WorshipStats_WebDeploy_Final/modules/stat_calculator.py:29-32 | a present role cell yields no record exactly when all of its `/`-pieces strip to the empty string, `NaN` or `暫停` |
| Stats.TypeScoreAppend | WorshipStats_WebDeploy_Final/modules/stat_calculator.py:55-57 | weights are additive over the registry: every matching type adds its weight, not only the first |
| Stats.TypeScoreAtLeast | WorshipStats_WebDeploy_Final/modules/stat_calculator.py:55-57 | a meeting earns at least the weight of each type it matches |
| Stats.TypeScoreRange | WorshipStats_WebDeploy_Final/modules/stat_calculator.py:55-57 | a meeting matching no type earns 0, and no meeting earns more than the registry's total weight |
| Stats.DefaultScoreBound | WorshipStats_WebDeploy_Final/modules/stat_calculator.py:5-21 | with the default registry, one record adds at most 14 to the weighted score |
| Stats.Accumulate | WorshipStats_WebDeploy_Final/modules/stat_calculator.py:43-66 | after the loop, each person's weighted score is the sum of their records' type scores, their bonus is 2 × their `早上飽` records, and each role counter counts their records whose role contains the marker |
| Stats.AddRecord | WorshipStats_WebDeploy_Final/modules/stat_calculator.py:50-66 | one record changes only its own person's counters: it adds the type score, the bonus when the meeting holds `早上飽`, and one per role marker found, each tested independently |
| Stats.AddTypeWeights | WorshipStats_WebDeploy_Final/modules/stat_calculator.py:55-57 | the registry loop adds the meeting's type score to the record's person and leaves everyone else unchanged |
| Stats.CountIf | WorshipStats_WebDeploy_Final/modules/stat_calculator.py:60-66 | a conditional counter increment changes only the named person, and only when the test holds |
| Stats.TalliesStep | WorshipStats_WebDeploy_Final/modules/stat_calculator.py:49-66 | counters that describe the first i records, after one record is added, describe the first i + 1 |
| Stats.CalculateStats | WorshipStats_WebDeploy_Final/modules/stat_calculator.py:37-79 | fails with a missing person column exactly on empty input; otherwise both tables are keyed by the one distinct-person list, the monthly totals add up to the number of records, and every summary row holds its own person's scores and the derived columns |
| Stats.RowTotal | WorshipStats_WebDeploy_Final/modules/stat_calculator.py:39-40 | a person's monthly counts add up to the person's number of records |
| Stats.CrossTabMeaning | WorshipStats_WebDeploy_Final/modules/stat_calculator.py:39-40 | each monthly cell counts the person's records in that month, and each total is the person's record count |
| Stats.CrossTabGrandTotal | WorshipStats_WebDeploy_Final/modules/stat_calculator.py:39-40 | the totals column adds up to the number of records |
| Stats.PersonsExact | WorshipStats_WebDeploy_Final/modules/stat_calculator.py:69-74 | the person list has no duplicates and holds exactly the people who have a record |
| Stats.SummarizeAligned | WorshipStats_WebDeploy_Final/modules/stat_calculator.py:68-77 | reading every column for the same person gives rows whose scores are their own person's, with role weight = 0.5 × (MD + Band Leader + Vocal Leader) and total = weighted + bonus + role weight |
| Stats.SummaryAsWritten | WorshipStats_WebDeploy_Final/modules/stat_calculator.py:68-77 | the summary as assembled: the name column is any ordering of the distinct people; row i carries its i-th name, while its weighted, bonus, MD, Band Leader and Vocal Leader columns are the i-th first-appearance person's counters, and its role weight and total follow from those columns |
| Stats.PersonMonthsLength | WorshipStats_WebDeploy_Final/modules/stat_calculator.py:39 | a person has one month entry per record |
| Stats.PersonMonthsWithin | WorshipStats_WebDeploy_Final/modules/stat_calculator.py:39 | every month of a person's records is a month column |
| Stats.BonusBounded | WorshipStats_WebDeploy_Final/modules/stat_calculator.py:60-61 | the bonus count never exceeds the person's record count |
| Stats.RoleBounded | WorshipStats_WebDeploy_Final/modules/stat_calculator.py:64-66 | each role counter never exceeds the person's record count |
| Stats.WeightedBounded | WorshipStats_WebDeploy_Final/modules/stat_calculator.py:55-57 | the weighted score is at most the registry's total weight × the person's record count |
| Counting.SumCountsCover | WorshipStats_WebDeploy_Final/modules/stat_calculator.py:39-40 | when every item is one of a duplicate-free key list, the per-key counts add up to the number of items |
| Counting.Distinct | WorshipStats_WebDeploy_Final/modules/stat_calculator.py:70-74 | the distinct list has no duplicates and holds exactly the elements of the input |
| Counting.Bump | WorshipStats_WebDeploy_Final/modules/stat_calculator.py:57-66 | `counter[k] += d` changes only key k, by d, with a missing key read as 0 |
| Examples.TwoNamesInOneCell | WorshipStats_WebDeploy_Final/modules/stat_calculator.py:30-34 | the cell `"A / B"` yields exactly two records, A then B, sharing meeting, month and role |
| Examples.SentinelsOnly | WorshipStats_WebDeploy_Final/modules/stat_calculator.py:30-32 | the cell `"NaN/暫停/ "` yields no record |
| Examples.MeetingColumnSkipped | WorshipStats_WebDeploy_Final/modules/stat_calculator.py:27 | the meeting-name cell yields no record, whatever value it holds, missing included |
| Examples.ScoreDefault | WorshipStats_WebDeploy_Final/modules/stat_calculator.py:5-21 | the default registry's score, type by type: 3 for `禱告會`, 4 for `青年主日`, 4 for `三民早堂` or `美河堂`, 1 each for `QQ`, `英文崇拜`, `大Q` |
| Examples.SundayMorningScore | WorshipStats_WebDeploy_Final/modules/stat_calculator.py:5-21 | `三民早堂 早上飽` scores 4 |
| Examples.SundayMorningBonus | WorshipStats_WebDeploy_Final/modules/stat_calculator.py:60 | `三民早堂 早上飽` carries the bonus marker |
| Examples.TwoTypesAdd | WorshipStats_WebDeploy_Final/modules/stat_calculator.py:55-57 | a name holding two types' keywords earns both weights, 3 + 1 |
| Examples.SummaryMisaligned | WorshipStats_WebDeploy_Final/modules/stat_calculator.py:68-75 | with two people where only the first is MD, a set order that lists the second first breaks the summary's per-row consistency |
| Examples.SummaryMisalignedExample | WorshipStats_WebDeploy_Final/modules/stat_calculator.py:68-75 | records A (MD) then B (Vocal) with name column B, A: the summary's first row shows A's MD count under B's name |

## Left out

- pandas machinery is modelled as sequences and maps, not as library calls. This covers `iterrows`, DataFrame construction, `pd.crosstab`, `reset_index` and column labelling.
- `pd.notna` and the `str(cell)` coercion are not modelled. A cell is `Option<string>` that already holds text; `None` is the missing cell.
- The meeting name and month of a row are modelled as present text (`Row.meeting`, `Row.month`), copied into every record as line 33 does. A missing (NaN) meeting name or month is not modelled. pandas' cross-table drops records whose month is missing, so such a record would count in the summary but in no monthly cell.
- Stats.CrossTabGrandTotal: the totals add up to the number of records because every record has a month here; with missing months pandas' totals would fall short by the number of such records. The same holds for the totals clause of Stats.CalculateStats.
- Row and column order of the output tables is not modelled. pandas sorts the cross-table by person and month. The model keys both tables by people and months in order of first appearance, and proves only what the rows and cells hold.
- Stats.CalculateStats: the summary uses one shared distinct-person list, as intended. The set-ordered name column of the source is modelled separately by Stats.SummaryAsWritten (see Findings).
- Floating point is not modelled. The 0.5 role factor and the derived columns are exact `real`s; the counters are unbounded integers.
- Stats.CountIf stands for the three role tests and the bonus test, each a conditional increment.
- Expander.AppendCell is the innermost loop of `clean_and_expand`, the one over a cell's pieces, written as its own method. The loop structure is otherwise unchanged.
- The registry is a parameter. The markers (`早上飽`, `MD`, `Band Leader`, `Vocal Leader`), the bonus weight 2 and the delimiter `/` are constants, as in the source.
- Spreadsheet loading, file output and the Streamlit user interface are not part of this model.

## Findings

| source | as written | input that shows it | evidently intended | confidence | as-written member | corrected member |
|---|---|---|---|---|---|---|
| WorshipStats_WebDeploy_Final/modules/stat_calculator.py:69-74 | the name column is `list(set(names))`, while every score column follows `names.unique()`, the order of first appearance; a set's order need not match | records (A, role MD) then (B, role Vocal); a set order B, A puts B's name on the row that holds A's MD count of 1 | every column of a row is about the same person, read from one distinct-person list | not executed; set order of strings varies with the hash seed | Examples.SummaryMisaligned | Stats.SummarizeAligned |
