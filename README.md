# jcvi alignment driver and assembly-graph demo, modelled in Dafny

This project models two small parts of the jcvi toolkit.

**The alignment driver** (`apps/align.py`). `run_formatdb`, `run_blat`,
`run_vecscreen`, `run_megablast` and `run_blast_filter` build shell commands for
`makeblastdb`, `blastn` and `blat`, run them, and filter the hits.
The `blast` command-line action derives an output name and calls `run_megablast`.
- A shell command is modelled as its list of words. A `blastn` command is the
  program followed by the words of a list of `-flag value` pairs, flag before value
  (`FlagWords`). `CommandLine` joins the words with single spaces, as the source's
  string concatenation does.
- What the driver asks of the outside world is recorded, in order, in the log of a
  `Runner` object. The requests are:
  - a call of `run_formatdb`;
  - a shell command;
  - a call of the hit filter;
  - a file move.
- Each `Runner` method ends with its log equal to the old log followed by the plan
  that a pure function computes. The lemmas about those plan functions state the
  ordering, the conditions and the names.
- A numeric option is kept as the text `"{0}".format` gives for it, together with
  its Python truthiness (`Num`). `None` prints as `None`.

**The assembly-graph demo** (`graphics/graph.py`). `make_sequence` labels the
elements of a haplotype. `sequence_to_graph` draws one chain per haplotype.
`zip_sequences` adds fusion edges between labels of one column that share the text
after their first underscore (their "part").
- The graphviz `Digraph` is a class with a node list and an edge list, and its
  methods append to them.
- `zip_sequences` is modelled as nested loops:
  - `GroupColumn` fills the `groups` dictionary;
  - `DrawGroups` and `DrawPairs` draw `combinations(group, 2)`;
  - `FuseColumns` walks the columns.
- Each loop is proved against a recursive specification: `Keys`, `Group`,
  `GroupsEdges`, `Pairs` and `Fuse`. `Fuse` walks the columns' outcomes, each being
  the column's fusion edges or a failure, and stops at the first failure.

`strings.dfy` holds the string operations the Python code uses:
- `str.split`, together with the search for the first separator that
  `x.split('_', 1)` makes (`IndexOf`);
- `os.path.basename` and the text before its first `.`;
- `str()` of a non-negative integer.

`Join` is not called by the Python code: it is the inverse of `Split`, used to
state the two round trips.

Two behaviours of the code are worth stating outright:
- **Index construction.** `run_megablast` and `run_vecscreen` always call
  `run_formatdb` (apps/align.py:43, 62). Skipping an existing index would be the job
  of the `@depends` decorator, which is not part of this model. The model therefore
  always logs the call, naming the index it expects.
- **Filtering from the CLI.** `blast` passes `hitlen=None` (apps/align.py:133), so no
  filter ever runs from the command line (`BlastOutcome`).

## Model

| member | source | states |
|---|---|---|
| Strings.IndexOf | graphics/graph.py:46 | the first `_`, where `split('_', 1)` cuts: None exactly when the character is absent; otherwise the position of its first occurrence |
| Strings.Split | apps/align.py:127-128 | `str.split`: at least one piece; no piece holds the separator; the first piece is a prefix of the input; joining the pieces gives the input back |
| Strings.SplitOfJoin | apps/align.py:127-129 | the other round trip: splitting a join of separator-free pieces gives the pieces back |
| Strings.JoinLast | apps/align.py:127-128 | the last piece of a split is a suffix of the input, preceded by the separator unless it is the only piece |
| Strings.Basename | apps/align.py:127-128 | `os.path.basename`: the suffix of the path that holds no `/` and is either the whole path or preceded by a `/`, i.e. the text after the last `/` |
| Strings.Stem | apps/align.py:127-128 | `basename(p).split(".")[0]`: the prefix of the basename with no `.` that is either the whole basename or followed by a `.`, i.e. the text before the first `.` |
| Strings.NatToString | graphics/graph.py:22 | `str(i)`: a non-empty string of decimal digits with no leading zero (it starts with `0` only for 0) |
| Strings.DigitsValueOfNatToString | graphics/graph.py:22 | the digits of `str(n)` read back as the number `n` |
| Strings.NatToStringInjective | graphics/graph.py:22 | different positions have different renderings |
| Align.FlagPairsOfWords | apps/align.py:64-73 | reading the words of a command back as `-flag value` pairs gives the pairs it was built from |
| Align.FlagWordsOfPairs | apps/align.py:64-73 | words that read as some pairs are exactly the words of those pairs, so the pair list determines the command |
| Align.CommandLineWords | apps/align.py:64-74 | splitting the command line at spaces gives its words back when no word holds a space |
| Align.FilteredNameFresh | apps/align.py:29 | the filtered file name is longer than `outfile`, starts with it and continues with `.P`, so it names a different file |
| Align.BlatAlwaysFilters | apps/align.py:24-32 | `run_blat` issues `blat db infile -out=blast8 outfile`, then always filters `outfile` with `--pctid=`/`--hitlen=` and moves `outfile.P{pctid}L{hitlen}` over `outfile` |
| Align.BlatDefaultPlan | apps/align.py:24-32 | with its defaults `run_blat` searches `UniVec_Core`, filters with `--pctid=95 --hitlen=50` and moves `outfile.P95L50` back |
| Align.Runner.RunBlat | apps/align.py:23-32 | the log grows by exactly the `run_blat` plan |
| Align.Runner.RunBlastFilter | apps/align.py:84-91 | the log grows by one filter call on `[infile, --pctid={pctid}, --hitlen={hitlen}]`; the `outfile` argument is ignored |
| Align.Runner.RunFormatdb | apps/align.py:16-20 | the log grows by the `run_formatdb` call, then `makeblastdb -dbtype {dbtype} -in {infile}` |
| Align.VecscreenOrder | apps/align.py:42-50 | `run_vecscreen` indexes `db.nin` with `makeblastdb -dbtype nucl -in db`, then issues its one `blastn` command, and never filters or moves |
| Align.VecscreenValues | apps/align.py:45-49 | the vecscreen search is task `blastn` on the given query, database and output |
| Align.Runner.RunVecscreen | apps/align.py:35-50 | the log grows by exactly the `run_vecscreen` plan |
| Align.MegablastArguments | apps/align.py:64-73 | the `+=` steps build exactly the fixed pairs followed by each optional pair whose value is truthy |
| Align.MegablastFixedValues | apps/align.py:64-67 | whatever the optional values, `-query`, `-db`, `-out`, `-evalue`, `-outfmt 6`, `-num_threads` and `-task` carry the files, the e-value, the thread count and the task |
| Align.MegablastOptionalValues | apps/align.py:68-73 | `-word_size`, `-perc_identity` and `-max_target_seqs` are present exactly when their values are truthy, and then carry those values |
| Align.MegablastFlagOrder | apps/align.py:64-73 | the flags come in the order `-query -db -out -evalue -outfmt -num_threads -task`, then `-word_size`, `-perc_identity`, `-max_target_seqs` for the truthy ones |
| Align.MegablastOrder | apps/align.py:57-81 | it fails exactly when `db` is empty, and then issues nothing. Otherwise the index call (`.00.nin` if that file exists, else `.nin`) comes first, then `makeblastdb`, then `blastn`. A filter and a move over `outfile` happen exactly when both thresholds are truthy, and come only after `blastn`: the plan has five actions then, and ends with `blastn` (three actions) otherwise |
| Align.MegablastDefaultsFilter | apps/align.py:53-81 | with its defaults `run_megablast` filters with `--pctid=98 --hitlen=100` and moves `outfile.P98L100` over `outfile` |
| Align.Runner.RunMegablast | apps/align.py:53-81 | returns false with the log unchanged exactly when `db` is empty; otherwise the log grows by the `run_megablast` plan |
| Align.BlastFileNameParts | apps/align.py:126-129 | the output name splits at its dots into the query stem, the reference stem and `blast` |
| Align.BlastDefaultsCommand | apps/align.py:113-133 | with `blast`'s defaults the search is `megablast` with e-value `0.01` and `-max_target_seqs 1`, and has no `-word_size` and no `-perc_identity` |
| Align.BlastOutcome | apps/align.py:123-135 | a usage error exactly when there are not two arguments; a missing database exactly when the reference is empty. Otherwise the output is `{q}.{r}.blast` and the run has three actions, none of them a filter or a move |
| Align.Runner.Blast | apps/align.py:103-135 | returns the `blast` outcome; on an error the log is unchanged, otherwise it grows by the run's actions |
| Graph.MakeSequenceLabels | graphics/graph.py:18-22 | `make_sequence` keeps the length, element `i` is `{name}_{i}_{x}`, and the labels are pairwise distinct for any elements |
| Graph.LabelInjective | graphics/graph.py:18-22 | a label determines its position and element, and also its sequence name when names hold no underscore |
| Graph.PartAfterFirst | graphics/graph.py:46 | `x.split('_', 1)[1]` is the text after the first underscore (the one `IndexOf` finds) |
| Graph.LabelPart | graphics/graph.py:46 | with an underscore-free name, a label's part is `{i}_{x}` |
| Graph.Pairwise | graphics/graph.py:34-35 | `pairwise(seq)`: one fewer pair than elements (none for an empty sequence), pair `k` being `(seq[k], seq[k+1])` |
| Graph.Digraph.Node | graphics/graph.py:33 | appends one node and leaves the edges alone |
| Graph.Digraph.Edge | graphics/graph.py:35 | appends one edge and leaves the nodes alone |
| Graph.SequenceToGraph | graphics/graph.py:25-35 | the nodes grow by the sequence, in order; the edges grow by its consecutive pairs |
| Graph.MinLen | graphics/graph.py:43 | the length of the shortest sequence: no longer than any, equal to one of them, 0 without sequences |
| Graph.Zip | graphics/graph.py:43 | `zip(*allseqs)`: as many columns as the shortest sequence is long, column `c` holding element `c` of every sequence |
| Graph.KeysDistinct | graphics/graph.py:44-48 | the dictionary's keys, in first-insertion order, are distinct |
| Graph.KeysExact | graphics/graph.py:44-48 | a text is a key exactly when it is the part of some label of the column |
| Graph.GroupColumn | graphics/graph.py:44-47 | fails exactly when a label has no underscore; otherwise returns the keys and, for each key, the labels with that part in column order |
| Graph.PairsCount | graphics/graph.py:51-52 | a group of k labels gives k(k-1)/2 pairs |
| Graph.PairsMembers | graphics/graph.py:51-52 | `(a, b)` is a pair exactly when `a` stands before `b` in the group |
| Graph.DrawPairs | graphics/graph.py:51-52 | the edges grow by the pairs, in order |
| Graph.DrawGroups | graphics/graph.py:48-52 | the edges grow by the pairs of each group, group after group in key order |
| Graph.ColumnEdgesExact | graphics/graph.py:44-52 | within a column, `(a, b)` is a fusion edge exactly when `a` comes before `b` and they share their part |
| Graph.ColumnEdgesNoLoops | graphics/graph.py:44-52 | with unique labels no fusion edge joins a label to itself |
| Graph.FuseColumn | graphics/graph.py:44-52 | one column: fails exactly when a label has no underscore, drawing nothing; otherwise draws exactly the column's fusion edges |
| Graph.FuseFails | graphics/graph.py:43-46 | the walk stops exactly when one of its columns fails |
| Graph.FuseStopsAt | graphics/graph.py:43-46 | once a column stops the walk, later columns add nothing |
| Graph.FuseEdges | graphics/graph.py:43-52 | a completed walk met no failing column, and its edges are exactly those of its columns |
| Graph.ColumnsFuse | graphics/graph.py:43-52 | over the columns of `zip_sequences`: the walk stops exactly when a label has no underscore, and otherwise draws exactly the fusion edges of its columns |
| Graph.FusionEdgeShape | graphics/graph.py:43-52 | every fusion edge joins an earlier and a later label of one column that share their part |
| Graph.FuseNext | graphics/graph.py:44-52 | one round of the outer loop is one step of the walk: the edges follow it, and a false result means that column failed |
| Graph.FuseColumns | graphics/graph.py:43-52 | the edges grow by the walk's edges; the result is false exactly when the walk stopped |
| Graph.ZipSequences | graphics/graph.py:38-52 | `zip_sequences` adds no node; it adds the fusion edges of the columns of the zipped sequences and reports whether a label lacked an underscore |
| Graph.FuseWithoutLoops | graphics/graph.py:43-52 | columns of unique labels with parts never stop the walk and never give a self-loop |
| Graph.LabelledColumns | graphics/graph.py:43-46 | for sequences made by `make_sequence` with distinct, underscore-free names, each column holds the labels of element `c`, each with part `{c}_{x}`, all distinct |
| Graph.LabelPartsAgree | graphics/graph.py:39-46 | two labels of one column share a part exactly when they carry the same element ("same data except for the sequence name") |
| Graph.LabelledSequencesFuse | graphics/graph.py:38-52 | for such sequences the walk never stops and has no self-loop, and two labels of a column are grouped exactly when they carry the same element |

## Left out

- `sh`, `BLPATH` and the binaries `makeblastdb`, `blastn` and `blat` are not run. `sh` is a logged action; `BLPATH` is a function given to the `Runner`. Exit codes and output content are not modelled, so a failing external process does not stop the model's plan.
- `apps/align.py` uses `op`, `sh`, `BLPATH`, `shutil` and `logging` without importing them. The model treats them as jcvi's usual helpers.
- `op.exists`: the `Runner` is given a fixed `present` predicate, and files do not appear as commands run.
- The `@depends` decorator (jcvi.utils.cbook) is not part of this model. Every decorated function runs its body.
- The hit filter `jcvi.formats.blast.filter` is not part of this model. Only its call and argument list are recorded; the per-record filtering, and the rows it keeps, are not modelled.
- `logging.debug` in `run_blast_filter` is not modelled.
- `OptionParser`, `ActionDispatcher`, `debug()` and `main`'s dispatch are not modelled. `blast` receives its positional arguments and parsed options directly, and the `cpus` default of `set_cpus` is a parameter. A wrong argument count is the `Usage` error, standing for `sys.exit` after the help text.
- Float formatting: `evalue` and float thresholds are given as the text `"{0}".format` produces. Only integers are rendered by the model (`Int`).
- The `None` defaults of `infile` and `outfile` are not modelled; paths are strings. A `db` of `None` is modelled as the empty string, since both fail `assert db`.
- `CommandLineWords`: the words are recovered from the command line only when no path holds a space; the source does not quote its paths either.
- Align.Runner.RunFormatdb: the `outfile` argument is used by the source only through `@depends`. The model records it in the logged call and does not check or create the file.
- graphviz styling (`attr`, colours, subgraph names and the `color`/`constraint` edge attributes) and rendering (`G.view()`) are not modelled. Edges are pairs of labels.
- `main`'s random data (`choice`, `sample`) and its Python 2 `print` are not modelled. `LabelledSequencesFuse` covers the shape of data `main` builds, with names `str(x)` that hold no underscore.
- Graph.ZipSequences: the source runs on Python 2, where `groups.items()` comes in arbitrary order. The model draws the groups in first-insertion order. The properties about which edges are drawn (`FuseEdges`, `FusionEdgeShape`, `ColumnEdgesExact`) do not depend on that order.
