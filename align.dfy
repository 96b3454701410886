/** The alignment driver: `run_formatdb`, `run_blat`, `run_vecscreen`,
    `run_megablast`, `run_blast_filter` and the `blast` command-line action.

    A shell command is modelled as its list of space-separated words.  The
    external programs, the BLAST filter and the file moves are not run: a
    `Runner` records them, in order, as actions in its log. */
module Align {
  import opened Strings

  /** A numeric option: the text `"{0}".format(v)` gives for it, and whether it is zero (falsy). */
  datatype Num = Num(text: string, zero: bool)

  /** An integer literal, such as the defaults 95, 50, 98, 100, 16 and 1. */
  function Int(n: nat): Num {
    Num(NatToString(n), n == 0)
  }

  /** Python truthiness of an optional number: None and zero are false. */
  predicate Truthy(v: Option<Num>) {
    v.Some? && !v.value.zero
  }

  /** `"{0}".format(v)`, where None prints as `None`. */
  function Render(v: Option<Num>): string {
    match v
    case None => "None"
    case Some(n) => n.text
  }

  /** The value an optional flag shows on the command line: present exactly when truthy. */
  function Shown(v: Option<Num>): Option<string> {
    if Truthy(v) then Some(Render(v)) else None
  }

  /** What the driver asks of the outside world, in the order it asks. */
  datatype Action =
    | Formatdb(infile: string, outfile: string)  // a call of `run_formatdb`: the database and the index it should produce
    | Shell(cmd: seq<string>)                    // `sh(cmd)`
    | Filter(args: seq<string>)                  // the BLAST hit filter, called with its argument list
    | Move(src: string, dst: string)             // `shutil.move(src, dst)`

  datatype Error =
    | Usage            // `blast` called with a positional-argument count other than 2
    | MissingDatabase  // `assert db` failed in `run_megablast`

  datatype Result<+T> = Success(value: T) | Failure(error: Error)

  // ---------------------------------------------------------------------
  // Command words, and a reader that takes `-flag value` words apart again
  // ---------------------------------------------------------------------

  /** The words of `-flag value` pairs, flag before value, pair after pair. */
  function FlagWords(pairs: seq<(string, string)>): (words: seq<string>)
    ensures |words| == 2 * |pairs|
  {
    seq(2 * |pairs|, i requires 0 <= i < 2 * |pairs| => if i % 2 == 0 then pairs[i / 2].0 else pairs[i / 2].1)
  }

  /** Reads words back as `-flag value` pairs; None when the last flag has no value. */
  function FlagPairs(words: seq<string>): Option<seq<(string, string)>> {
    if |words| % 2 == 1 then None
    else Some(seq(|words| / 2, k requires 0 <= k < |words| / 2 => (words[2 * k], words[2 * k + 1])))
  }

  /** Reading the words of some pairs gives those pairs back. */
  lemma FlagPairsOfWords(pairs: seq<(string, string)>)
    ensures FlagPairs(FlagWords(pairs)) == Some(pairs)
  {
    var w := FlagWords(pairs);
    var n := |pairs|;
    assert |w| == 2 * n && (2 * n) % 2 == 0 && (2 * n) / 2 == n;
    var r := FlagPairs(w).value;
    forall k | 0 <= k < n
      ensures r[k] == pairs[k]
    {
      assert (2 * k) / 2 == k && (2 * k) % 2 == 0;
      assert (2 * k + 1) / 2 == k && (2 * k + 1) % 2 == 1;
      assert w[2 * k] == pairs[k].0 && w[2 * k + 1] == pairs[k].1;
    }
    assert |r| == n;
    assert r == pairs;
  }

  /** Words that read as some pairs are exactly the words of those pairs. */
  lemma FlagWordsOfPairs(words: seq<string>, pairs: seq<(string, string)>)
    requires FlagPairs(words) == Some(pairs)
    ensures FlagWords(pairs) == words
  {
    var w := FlagWords(pairs);
    forall i | 0 <= i < |words|
      ensures w[i] == words[i]
    {
      var k := i / 2;
      assert pairs[k] == (words[2 * k], words[2 * k + 1]);
      if i % 2 == 0 {
        assert i == 2 * k;
      } else {
        assert i == 2 * k + 1;
      }
    }
  }

  /** The value given with the first occurrence of `flag`. */
  function Lookup(pairs: seq<(string, string)>, flag: string): Option<string> {
    if pairs == [] then None
    else if pairs[0].0 == flag then Some(pairs[0].1)
    else Lookup(pairs[1..], flag)
  }

  /** A flag that is not there has no value. */
  lemma {:induction false} LookupAbsent(pairs: seq<(string, string)>, flag: string)
    requires forall k :: 0 <= k < |pairs| ==> pairs[k].0 != flag
    ensures Lookup(pairs, flag) == None
  {
    if pairs != [] {
      assert forall k :: 0 <= k < |pairs| - 1 ==> pairs[1..][k] == pairs[k + 1];
      LookupAbsent(pairs[1..], flag);
    }
  }

  /** The value of a flag is the one given at its first occurrence. */
  lemma {:induction false} LookupFirst(pairs: seq<(string, string)>, flag: string, k: nat)
    requires k < |pairs| && pairs[k].0 == flag
    requires forall j :: 0 <= j < k ==> pairs[j].0 != flag
    ensures Lookup(pairs, flag) == Some(pairs[k].1)
  {
    if k > 0 {
      LookupFirst(pairs[1..], flag, k - 1);
    }
  }

  /** The flags of `pairs`, in order. */
  function Flags(pairs: seq<(string, string)>): seq<string> {
    seq(|pairs|, k requires 0 <= k < |pairs| => pairs[k].0)
  }

  lemma FlagsAppend(p: seq<(string, string)>, q: seq<(string, string)>)
    ensures Flags(p + q) == Flags(p) + Flags(q)
  {
    assert forall k :: |p| <= k < |p + q| ==> (p + q)[k] == q[k - |p|];
  }

  /** The command as `sh` receives it: the words joined by single spaces. */
  function CommandLine(words: seq<string>): string {
    Join(words, ' ')
  }

  /** Splitting the command line at spaces gives the words back, provided no word holds a space. */
  lemma CommandLineWords(words: seq<string>)
    requires |words| >= 1
    requires forall k :: 0 <= k < |words| ==> ' ' !in words[k]
    ensures Split(CommandLine(words), ' ') == words
  {
    SplitOfJoin(words, ' ');
  }

  // ---------------------------------------------------------------------
  // run_formatdb, run_blast_filter, run_blat, run_vecscreen
  // ---------------------------------------------------------------------

  /** `makeblastdb -dbtype {dbtype} -in {infile}`. */
  function FormatdbArgs(dbtype: string, infile: string): seq<(string, string)> {
    [("-dbtype", dbtype), ("-in", infile)]
  }

  function FormatdbWords(makeblastdb: string, dbtype: string, infile: string): seq<string> {
    [makeblastdb] + FlagWords(FormatdbArgs(dbtype, infile))
  }

  /** `run_formatdb` logs its own call, then the `makeblastdb` command. */
  function FormatdbSteps(makeblastdb: string, infile: string, outfile: string, dbtype: string): seq<Action> {
    [Formatdb(infile, outfile), Shell(FormatdbWords(makeblastdb, dbtype, infile))]
  }

  /** The arguments of the BLAST filter: the input, then `--pctid=` and `--hitlen=` with the thresholds. */
  function FilterArgs(infile: string, pctid: Option<Num>, hitlen: Option<Num>): seq<string> {
    [infile, "--pctid=" + Render(pctid), "--hitlen=" + Render(hitlen)]
  }

  /** The filtered copy of `outfile`: `outfile + ".P{pctid}L{hitlen}"`. */
  function FilteredName(outfile: string, pctid: Option<Num>, hitlen: Option<Num>): string {
    outfile + ".P" + Render(pctid) + "L" + Render(hitlen)
  }

  /** The filtered copy is a different file that starts with the name of the file it replaces. */
  lemma FilteredNameFresh(outfile: string, pctid: Option<Num>, hitlen: Option<Num>)
    ensures var f := FilteredName(outfile, pctid, hitlen);
      |outfile| < |f| && f[..|outfile|] == outfile && f[|outfile|..|outfile| + 2] == ".P"
  {
  }

  /** Filter `outfile` into its filtered copy, then move the copy over `outfile`. */
  function FilterAndReplace(outfile: string, pctid: Option<Num>, hitlen: Option<Num>): seq<Action> {
    var filtered := FilteredName(outfile, pctid, hitlen);
    [Filter(FilterArgs(outfile, pctid, hitlen)), Move(filtered, outfile)]
  }

  function BlatWords(db: string, infile: string, outfile: string): seq<string> {
    ["blat", db, infile, "-out=blast8", outfile]
  }

  /** Defaults of `run_blat`: database `UniVec_Core`, 95 percent identity, hits of length 50. */
  const BlatDb: string := "UniVec_Core"
  function BlatPctid(): Option<Num> { Some(Int(95)) }
  function BlatHitlen(): Option<Num> { Some(Int(50)) }

  function BlatPlan(infile: string, outfile: string, db: string, pctid: Option<Num>, hitlen: Option<Num>): seq<Action> {
    [Shell(BlatWords(db, infile, outfile))] + FilterAndReplace(outfile, pctid, hitlen)
  }

  /** `run_blat` always filters, whatever its thresholds, and the filtered file ends up under `outfile`. */
  lemma BlatAlwaysFilters(infile: string, outfile: string, db: string, pctid: Option<Num>, hitlen: Option<Num>)
    ensures var plan := BlatPlan(infile, outfile, db, pctid, hitlen);
      |plan| == 3
      && plan[0] == Shell(["blat", db, infile, "-out=blast8", outfile])
      && plan[1] == Filter([outfile, "--pctid=" + Render(pctid), "--hitlen=" + Render(hitlen)])
      && plan[2] == Move(outfile + ".P" + Render(pctid) + "L" + Render(hitlen), outfile)
  {
  }

  /** With its defaults `run_blat` screens against `UniVec_Core` and keeps hits of at least
      95 percent identity and length 50, under the original name. */
  lemma BlatDefaultPlan(infile: string, outfile: string)
    ensures BlatPlan(infile, outfile, BlatDb, BlatPctid(), BlatHitlen())
         == [Shell(["blat", "UniVec_Core", infile, "-out=blast8", outfile]),
             Filter([outfile, "--pctid=95", "--hitlen=50"]),
             Move(outfile + ".P95L50", outfile)]
  {
    assert NatToString(95) == "95";
    assert NatToString(50) == "50";
    assert "--pctid=" + "95" == "--pctid=95" && "--hitlen=" + "50" == "--hitlen=50";
    assert outfile + ".P" + "95" + "L" + "50" == outfile + ".P95L50";
  }

  /** The files of a BLAST search: `-query {infile} -db {db} -out {outfile}`. */
  function FileArgs(infile: string, db: string, outfile: string): seq<(string, string)> {
    [("-query", infile), ("-db", db), ("-out", outfile)]
  }

  /** The scoring of the vecscreen search, as the VecScreen documentation prescribes. */
  const VecscreenScoring: seq<(string, string)> :=
    [("-penalty", "-5"), ("-gapopen", "4"), ("-gapextend", "4"), ("-dust", "yes"), ("-soft_masking", "true")]

  const VecscreenOutput: seq<(string, string)> :=
    [("-searchsp", "1750000000000"), ("-evalue", "0.01"), ("-outfmt", "6"), ("-num_threads", "8")]

  /** The arguments of the vecscreen search. */
  function VecscreenArgs(infile: string, db: string, outfile: string): seq<(string, string)> {
    [("-task", "blastn")] + FileArgs(infile, db, outfile) + VecscreenScoring + VecscreenOutput
  }

  function VecscreenWords(blastn: string, infile: string, db: string, outfile: string): seq<string> {
    [blastn] + FlagWords(VecscreenArgs(infile, db, outfile))
  }

  function VecscreenPlan(makeblastdb: string, blastn: string, infile: string, outfile: string, db: string): seq<Action> {
    FormatdbSteps(makeblastdb, db, db + ".nin", "nucl") + [Shell(VecscreenWords(blastn, infile, db, outfile))]
  }

  /** `run_vecscreen` always indexes `db + ".nin"` before its one `blastn` search, and it never filters. */
  lemma VecscreenOrder(makeblastdb: string, blastn: string, infile: string, outfile: string, db: string)
    ensures var plan := VecscreenPlan(makeblastdb, blastn, infile, outfile, db);
      && |plan| == 3
      && plan[0] == Formatdb(db, db + ".nin")
      && plan[1] == Shell([makeblastdb, "-dbtype", "nucl", "-in", db])
      && plan[2] == Shell(VecscreenWords(blastn, infile, db, outfile))
      && forall k :: 0 <= k < |plan| ==> !plan[k].Filter? && !plan[k].Move?
  {
    assert FlagWords(FormatdbArgs("nucl", db)) == ["-dbtype", "nucl", "-in", db];
  }

  /** The vecscreen search is a `blastn` task on the given query, database and output. */
  lemma VecscreenValues(infile: string, db: string, outfile: string)
    ensures var args := VecscreenArgs(infile, db, outfile);
      && Lookup(args, "-task") == Some("blastn")
      && Lookup(args, "-query") == Some(infile)
      && Lookup(args, "-db") == Some(db)
      && Lookup(args, "-out") == Some(outfile)
  {
    var args := VecscreenArgs(infile, db, outfile);
    LookupFirst(args, "-task", 0);
    LookupFirst(args, "-query", 1);
    LookupFirst(args, "-db", 2);
    LookupFirst(args, "-out", 3);
  }

  // ---------------------------------------------------------------------
  // run_megablast
  // ---------------------------------------------------------------------

  /** The keyword arguments of `run_megablast`; a database of None is the empty string. */
  datatype MegablastOptions = MegablastOptions(
    infile: string, outfile: string, db: string,
    wordsize: Option<Num>, pctid: Option<Num>, hitlen: Option<Num>, best: Option<Num>,
    evalue: Option<Num>, task: string, cpus: Option<Num>)

  /** `run_megablast`'s defaults for everything but the files. */
  function MegablastDefaults(infile: string, outfile: string, db: string): MegablastOptions {
    MegablastOptions(infile, outfile, db, None, Some(Int(98)), Some(Int(100)), None,
                     Some(Num("0.01", false)), "megablast", Some(Int(16)))
  }

  /** The existing index of `db`: the `.00.nin` volume if there is one, otherwise `.nin`. */
  function IndexName(db: string, present: string -> bool): string {
    if present(db + ".00.nin") then db + ".00.nin" else db + ".nin"
  }

  /** The seven fixed `-flag value` pairs of the megablast command, in order. */
  function MegablastFixedArgs(o: MegablastOptions): seq<(string, string)> {
    FileArgs(o.infile, o.db, o.outfile)
    + [("-evalue", Render(o.evalue)), ("-outfmt", "6"), ("-num_threads", Render(o.cpus))]
    + [("-task", o.task)]
  }

  /** `flag value` when the value is truthy, nothing otherwise. */
  function OptionalArg(flag: string, v: Option<Num>): seq<(string, string)> {
    if Truthy(v) then [(flag, Render(v))] else []
  }

  /** The arguments of the megablast command: the fixed ones, then `-word_size`,
      `-perc_identity` and `-max_target_seqs` where their values are truthy. */
  function MegablastArgs(o: MegablastOptions): seq<(string, string)> {
    MegablastFixedArgs(o)
    + OptionalArg("-word_size", o.wordsize)
    + OptionalArg("-perc_identity", o.pctid)
    + OptionalArg("-max_target_seqs", o.best)
  }

  function MegablastWords(blastn: string, o: MegablastOptions): seq<string> {
    [blastn] + FlagWords(MegablastArgs(o))
  }

  /** The first value of `flag` in two runs of pairs: the first run's if it has one, else the second's. */
  lemma {:induction false} LookupAppend(p: seq<(string, string)>, q: seq<(string, string)>, flag: string)
    ensures Lookup(p + q, flag) == if Lookup(p, flag).Some? then Lookup(p, flag) else Lookup(q, flag)
  {
    if p != [] {
      assert (p + q)[0] == p[0];
      if p[0].0 != flag {
        assert (p + q)[1..] == p[1..] + q;
        LookupAppend(p[1..], q, flag);
        assert Lookup(p + q, flag) == Lookup(p[1..] + q, flag);
        assert Lookup(p, flag) == Lookup(p[1..], flag);
      }
    } else {
      assert p + q == q;
    }
  }

  /** The fixed flags of the megablast command carry the files, the e-value, the output
      format 6, the thread count and the task, whatever the optional values. */
  lemma MegablastFixedValues(o: MegablastOptions)
    ensures var args := MegablastArgs(o);
      && Lookup(args, "-query") == Some(o.infile)
      && Lookup(args, "-db") == Some(o.db)
      && Lookup(args, "-out") == Some(o.outfile)
      && Lookup(args, "-evalue") == Some(Render(o.evalue))
      && Lookup(args, "-outfmt") == Some("6")
      && Lookup(args, "-num_threads") == Some(Render(o.cpus))
      && Lookup(args, "-task") == Some(o.task)
  {
    var fixed := MegablastFixedArgs(o);
    var rest := OptionalArg("-word_size", o.wordsize) + OptionalArg("-perc_identity", o.pctid)
                + OptionalArg("-max_target_seqs", o.best);
    assert MegablastArgs(o) == fixed + rest;
    LookupFirst(fixed, "-query", 0);
    LookupFirst(fixed, "-db", 1);
    LookupFirst(fixed, "-out", 2);
    LookupFirst(fixed, "-evalue", 3);
    LookupFirst(fixed, "-outfmt", 4);
    LookupFirst(fixed, "-num_threads", 5);
    LookupFirst(fixed, "-task", 6);
    forall flag | Lookup(fixed, flag).Some?
      ensures Lookup(MegablastArgs(o), flag) == Lookup(fixed, flag)
    {
      LookupAppend(fixed, rest, flag);
    }
  }

  lemma OptionalArgLookup(g: string, v: Option<Num>, flag: string)
    ensures Lookup(OptionalArg(g, v), flag) == if flag == g then Shown(v) else None
  {
    if Truthy(v) {
      assert OptionalArg(g, v)[1..] == [];
    }
  }

  /** Each optional flag of the megablast command is there exactly when its value is truthy,
      and then carries that value. */
  lemma MegablastOptionalValues(o: MegablastOptions)
    ensures var args := MegablastArgs(o);
      && Lookup(args, "-word_size") == Shown(o.wordsize)
      && Lookup(args, "-perc_identity") == Shown(o.pctid)
      && Lookup(args, "-max_target_seqs") == Shown(o.best)
  {
    var fixed := MegablastFixedArgs(o);
    var a := OptionalArg("-word_size", o.wordsize);
    var b := OptionalArg("-perc_identity", o.pctid);
    var c := OptionalArg("-max_target_seqs", o.best);
    assert MegablastArgs(o) == fixed + (a + (b + c));
    forall flag | flag in ["-word_size", "-perc_identity", "-max_target_seqs"]
      ensures Lookup(MegablastArgs(o), flag)
           == if Lookup(a, flag).Some? then Lookup(a, flag)
              else if Lookup(b, flag).Some? then Lookup(b, flag)
              else Lookup(c, flag)
    {
      LookupAbsent(fixed, flag);
      LookupAppend(fixed, a + (b + c), flag);
      LookupAppend(a, b + c, flag);
      LookupAppend(b, c, flag);
    }
    forall flag | flag in ["-word_size", "-perc_identity", "-max_target_seqs"]
      ensures Lookup(a, flag) == if flag == "-word_size" then Shown(o.wordsize) else None
      ensures Lookup(b, flag) == if flag == "-perc_identity" then Shown(o.pctid) else None
      ensures Lookup(c, flag) == if flag == "-max_target_seqs" then Shown(o.best) else None
    {
      OptionalArgLookup("-word_size", o.wordsize, flag);
      OptionalArgLookup("-perc_identity", o.pctid, flag);
      OptionalArgLookup("-max_target_seqs", o.best, flag);
    }
  }

  /** The fixed flags come first, in their order; the optional ones follow in the order
      `-word_size`, `-perc_identity`, `-max_target_seqs`. */
  lemma MegablastFlagOrder(o: MegablastOptions)
    ensures Flags(MegablastArgs(o))
         == ["-query", "-db", "-out", "-evalue", "-outfmt", "-num_threads", "-task"]
            + (if Truthy(o.wordsize) then ["-word_size"] else [])
            + (if Truthy(o.pctid) then ["-perc_identity"] else [])
            + (if Truthy(o.best) then ["-max_target_seqs"] else [])
  {
    var fixed := MegablastFixedArgs(o);
    var a := OptionalArg("-word_size", o.wordsize);
    var b := OptionalArg("-perc_identity", o.pctid);
    var c := OptionalArg("-max_target_seqs", o.best);
    FlagsAppend(fixed + a + b, c);
    FlagsAppend(fixed + a, b);
    FlagsAppend(fixed, a);
    assert Flags(fixed) == ["-query", "-db", "-out", "-evalue", "-outfmt", "-num_threads", "-task"];
    assert Flags(a) == if Truthy(o.wordsize) then ["-word_size"] else [];
    assert Flags(b) == if Truthy(o.pctid) then ["-perc_identity"] else [];
    assert Flags(c) == if Truthy(o.best) then ["-max_target_seqs"] else [];
  }

  /** The actions of `run_megablast`, or the error it stops with. */
  function MegablastPlan(makeblastdb: string, blastn: string, present: string -> bool, o: MegablastOptions): Result<seq<Action>> {
    if o.db == "" then Failure(MissingDatabase)
    else
      Success(FormatdbSteps(makeblastdb, o.db, IndexName(o.db, present), "nucl")
              + [Shell(MegablastWords(blastn, o))]
              + (if Truthy(o.pctid) && Truthy(o.hitlen) then FilterAndReplace(o.outfile, o.pctid, o.hitlen) else []))
  }

  /** `run_megablast` fails exactly without a database, and then does nothing.  With one, it first
      asks for the index (`.00.nin` if present, else `.nin`), then runs `blastn`; it filters and
      replaces the output, after `blastn`, exactly when both thresholds are truthy. */
  lemma MegablastOrder(makeblastdb: string, blastn: string, present: string -> bool, o: MegablastOptions)
    ensures MegablastPlan(makeblastdb, blastn, present, o).Failure? <==> o.db == ""
    ensures MegablastPlan(makeblastdb, blastn, present, o).Failure? ==>
      MegablastPlan(makeblastdb, blastn, present, o).error == MissingDatabase
    ensures MegablastPlan(makeblastdb, blastn, present, o).Success? ==>
      var plan := MegablastPlan(makeblastdb, blastn, present, o).value;
      && |plan| >= 3
      && plan[0] == Formatdb(o.db, if present(o.db + ".00.nin") then o.db + ".00.nin" else o.db + ".nin")
      && plan[1] == Shell([makeblastdb, "-dbtype", "nucl", "-in", o.db])
      && plan[2] == Shell(MegablastWords(blastn, o))
      && |plan| == (if Truthy(o.pctid) && Truthy(o.hitlen) then 5 else 3)
      && ((exists k :: 0 <= k < |plan| && plan[k].Filter?) <==> Truthy(o.pctid) && Truthy(o.hitlen))
      && (forall k :: 0 <= k < |plan| && (plan[k].Filter? || plan[k].Move?) ==> 2 < k)
      && (Truthy(o.pctid) && Truthy(o.hitlen) ==>
            plan[3..] == [Filter(FilterArgs(o.outfile, o.pctid, o.hitlen)),
                          Move(FilteredName(o.outfile, o.pctid, o.hitlen), o.outfile)])
  {
    if o.db != "" {
      var plan := MegablastPlan(makeblastdb, blastn, present, o).value;
      if Truthy(o.pctid) && Truthy(o.hitlen) {
        assert plan[3].Filter?;
      }
    }
  }

  /** With its defaults (98 percent identity, hits of length 100) `run_megablast` filters. */
  lemma MegablastDefaultsFilter(makeblastdb: string, blastn: string, present: string -> bool,
                                infile: string, outfile: string, db: string)
    requires db != ""
    ensures var plan := MegablastPlan(makeblastdb, blastn, present, MegablastDefaults(infile, outfile, db));
      plan.Success? && |plan.value| == 5
      && plan.value[3] == Filter([outfile, "--pctid=98", "--hitlen=100"])
      && plan.value[4] == Move(outfile + ".P98L100", outfile)
  {
    assert NatToString(98) == "98";
    assert NatToString(100) == "100";
    assert "--pctid=" + "98" == "--pctid=98" && "--hitlen=" + "100" == "--hitlen=100";
    assert outfile + ".P" + "98" + "L" + "100" == outfile + ".P98L100";
  }

  // ---------------------------------------------------------------------
  // The `blast` command-line action
  // ---------------------------------------------------------------------

  datatype Task = Blastn | BlastnShort | DcMegablast | Megablast | Vecscreen

  function TaskName(t: Task): string {
    match t
    case Blastn => "blastn"
    case BlastnShort => "blastn-short"
    case DcMegablast => "dc-megablast"
    case Megablast => "megablast"
    case Vecscreen => "vecscreen"
  }

  /** The parsed options of `blast`. */
  datatype BlastOptions = BlastOptions(
    wordsize: Option<Num>, pctid: Option<Num>, evalue: Option<Num>, best: Option<Num>,
    task: Task, cpus: Option<Num>)

  /** `blast`'s defaults: no word size, no identity threshold, e-value 0.01, the best hit only, megablast. */
  function BlastDefaults(cpus: Option<Num>): BlastOptions {
    BlastOptions(None, None, Some(Num("0.01", false)), Some(Int(1)), Megablast, cpus)
  }

  /** `"{q}.{r}.blast"` from the basename prefixes of the query and the reference. */
  function BlastFileName(reffasta: string, queryfasta: string): string {
    Stem(queryfasta) + "." + Stem(reffasta) + ".blast"
  }

  /** The output name splits at its dots into the query prefix, the reference prefix and `blast`. */
  lemma BlastFileNameParts(reffasta: string, queryfasta: string)
    ensures Split(BlastFileName(reffasta, queryfasta), '.') == [Stem(queryfasta), Stem(reffasta), "blast"]
  {
    var parts := [Stem(queryfasta), Stem(reffasta), "blast"];
    assert parts[1..] == [Stem(reffasta), "blast"];
    assert parts[1..][1..] == ["blast"];
    assert Join(parts[1..], '.') == Stem(reffasta) + "." + "blast";
    assert Join(parts, '.') == BlastFileName(reffasta, queryfasta);
    SplitOfJoin(parts, '.');
  }

  /** With `blast`'s defaults the search is a megablast that keeps the best hit only, with no word
      size and no identity threshold, so its command has neither `-word_size` nor `-perc_identity`. */
  lemma BlastDefaultsCommand(reffasta: string, queryfasta: string, cpus: Option<Num>)
    ensures var args := MegablastArgs(BlastCall(reffasta, queryfasta, BlastDefaults(cpus)));
      && Lookup(args, "-task") == Some("megablast")
      && Lookup(args, "-evalue") == Some("0.01")
      && Lookup(args, "-max_target_seqs") == Some("1")
      && Lookup(args, "-word_size") == None
      && Lookup(args, "-perc_identity") == None
  {
    var o := BlastCall(reffasta, queryfasta, BlastDefaults(cpus));
    MegablastFixedValues(o);
    MegablastOptionalValues(o);
    assert NatToString(1) == "1";
  }

  /** The `run_megablast` call `blast` makes for `reffasta queryfasta`: never any hit length. */
  function BlastCall(reffasta: string, queryfasta: string, opts: BlastOptions): MegablastOptions {
    MegablastOptions(queryfasta, BlastFileName(reffasta, queryfasta), reffasta,
                     opts.wordsize, opts.pctid, None, opts.best, opts.evalue, TaskName(opts.task), opts.cpus)
  }

  /** The output name and actions of `blast args`, or the error it stops with. */
  function BlastRun(makeblastdb: string, blastn: string, present: string -> bool,
                    args: seq<string>, opts: BlastOptions): Result<(string, seq<Action>)> {
    if |args| != 2 then Failure(Usage)
    else
      match MegablastPlan(makeblastdb, blastn, present, BlastCall(args[0], args[1], opts))
      case Failure(e) => Failure(e)
      case Success(plan) => Success((BlastFileName(args[0], args[1]), plan))
  }

  /** `blast` refuses any argument count but two; it fails on an empty reference; otherwise it
      names its output `"{q}.{r}.blast"` and, since it passes no hit length, never filters. */
  lemma BlastOutcome(makeblastdb: string, blastn: string, present: string -> bool,
                     args: seq<string>, opts: BlastOptions)
    ensures var run := BlastRun(makeblastdb, blastn, present, args, opts);
      && (run == Failure(Usage) <==> |args| != 2)
      && (run == Failure(MissingDatabase) <==> |args| == 2 && args[0] == "")
      && (run.Success? ==>
            && run.value.0 == Stem(args[1]) + "." + Stem(args[0]) + ".blast"
            && |run.value.1| == 3
            && forall k :: 0 <= k < |run.value.1| ==> !run.value.1[k].Filter? && !run.value.1[k].Move?)
  {
    var run := BlastRun(makeblastdb, blastn, present, args, opts);
    if |args| == 2 {
      var o := BlastCall(args[0], args[1], opts);
      if args[0] == "" {
        assert run == Failure(MissingDatabase);
      } else {
        assert o.hitlen == None;
        var plan := MegablastPlan(makeblastdb, blastn, present, o).value;
        assert plan == FormatdbSteps(makeblastdb, o.db, IndexName(o.db, present), "nucl") + [Shell(MegablastWords(blastn, o))];
        assert run == Success((BlastFileName(args[0], args[1]), plan));
      }
    }
  }

  /** The arguments `run_megablast` gives `blastn`, grown as the source grows its command. */
  method MegablastArguments(o: MegablastOptions) returns (args: seq<(string, string)>)
    ensures args == MegablastArgs(o)
  {
    args := FileArgs(o.infile, o.db, o.outfile);
    args := args + [("-evalue", Render(o.evalue)), ("-outfmt", "6"), ("-num_threads", Render(o.cpus))];
    args := args + [("-task", o.task)];
    assert args == MegablastFixedArgs(o);
    if Truthy(o.wordsize) {
      args := args + [("-word_size", Render(o.wordsize))];
    }
    assert args == MegablastFixedArgs(o) + OptionalArg("-word_size", o.wordsize);
    if Truthy(o.pctid) {
      args := args + [("-perc_identity", Render(o.pctid))];
    }
    assert args == MegablastFixedArgs(o) + OptionalArg("-word_size", o.wordsize) + OptionalArg("-perc_identity", o.pctid);
    if Truthy(o.best) {
      args := args + [("-max_target_seqs", Render(o.best))];
    }
  }

  // ---------------------------------------------------------------------
  // The runner: the functions above, issued step by step
  // ---------------------------------------------------------------------

  /** Issues commands by appending them to `log`.  `blpath` finds a BLAST+ program;
      `present` says which files are present. */
  class Runner {
    const blpath: string -> string
    const present: string -> bool
    var log: seq<Action>

    constructor (blpath: string -> string, present: string -> bool)
      ensures this.blpath == blpath && this.present == present && log == []
    {
      this.blpath := blpath;
      this.present := present;
      log := [];
    }

    method Sh(cmd: seq<string>)
      modifies this
      ensures log == old(log) + [Shell(cmd)]
    {
      log := log + [Shell(cmd)];
    }

    method MoveFile(src: string, dst: string)
      modifies this
      ensures log == old(log) + [Move(src, dst)]
    {
      log := log + [Move(src, dst)];
    }

    method RunFormatdb(infile: string, outfile: string, dbtype: string)
      modifies this
      ensures log == old(log) + FormatdbSteps(blpath("makeblastdb"), infile, outfile, dbtype)
    {
      log := log + [Formatdb(infile, outfile)];
      var args := FormatdbArgs(dbtype, infile);
      Sh([blpath("makeblastdb")] + FlagWords(args));
    }

    /** The filter reads `infile`; `outfile` is accepted but not passed on. */
    method RunBlastFilter(infile: string, outfile: string, pctid: Option<Num>, hitlen: Option<Num>)
      modifies this
      ensures log == old(log) + [Filter(FilterArgs(infile, pctid, hitlen))]
    {
      var pctidopt := "--pctid=" + Render(pctid);
      var hitlenopt := "--hitlen=" + Render(hitlen);
      log := log + [Filter([infile, pctidopt, hitlenopt])];
    }

    method RunBlat(infile: string, outfile: string, db: string, pctid: Option<Num>, hitlen: Option<Num>)
      modifies this
      ensures log == old(log) + BlatPlan(infile, outfile, db, pctid, hitlen)
    {
      var cmd := BlatWords(db, infile, outfile);
      Sh(cmd);
      var blatfile := outfile;
      var filtered := FilteredName(outfile, pctid, hitlen);
      RunBlastFilter(blatfile, filtered, pctid, hitlen);
      MoveFile(filtered, blatfile);
    }

    method RunVecscreen(infile: string, outfile: string, db: string)
      modifies this
      ensures log == old(log) + VecscreenPlan(blpath("makeblastdb"), blpath("blastn"), infile, outfile, db)
    {
      var nin := db + ".nin";
      RunFormatdb(db, nin, "nucl");
      var blastn := blpath("blastn");
      var args := [("-task", "blastn")];
      args := args + FileArgs(infile, db, outfile);
      args := args + VecscreenScoring;
      args := args + VecscreenOutput;
      Sh([blastn] + FlagWords(args));
    }

    /** Returns false where `assert db` fails, having issued nothing. */
    method RunMegablast(o: MegablastOptions) returns (ok: bool)
      modifies this
      ensures var plan := MegablastPlan(blpath("makeblastdb"), blpath("blastn"), present, o);
        ok == plan.Success? && log == old(log) + (if ok then plan.value else [])
    {
      if o.db == "" {
        return false;
      }
      var nin00 := o.db + ".00.nin";
      var nin := if present(nin00) then nin00 else o.db + ".nin";
      RunFormatdb(o.db, nin, "nucl");

      var blastn := blpath("blastn");
      var args := MegablastArguments(o);
      Sh([blastn] + FlagWords(args));

      if Truthy(o.pctid) && Truthy(o.hitlen) {
        var blastfile := o.outfile;
        var filtered := FilteredName(o.outfile, o.pctid, o.hitlen);
        RunBlastFilter(blastfile, filtered, o.pctid, o.hitlen);
        MoveFile(filtered, blastfile);
      }
      ok := true;
    }

    /** `blast reffasta queryfasta`: returns the output name, or the error it stops with. */
    method Blast(args: seq<string>, opts: BlastOptions) returns (r: Result<string>)
      modifies this
      ensures var run := BlastRun(blpath("makeblastdb"), blpath("blastn"), present, args, opts);
        && (run.Failure? ==> r == Failure(run.error) && log == old(log))
        && (run.Success? ==> r == Success(run.value.0) && log == old(log) + run.value.1)
    {
      if |args| != 2 {
        return Failure(Usage);
      }
      var reffasta, queryfasta := args[0], args[1];
      var blastfile := BlastFileName(reffasta, queryfasta);
      var ok := RunMegablast(MegablastOptions(queryfasta, blastfile, reffasta, opts.wordsize, opts.pctid, None,
                                              opts.best, opts.evalue, TaskName(opts.task), opts.cpus));
      if !ok {
        return Failure(MissingDatabase);
      }
      r := Success(blastfile);
    }
  }
}
