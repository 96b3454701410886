/** Assembly-graph diagrams of polyploid genomes: each haplotype becomes a chain of
    labelled nodes, and nodes that carry the same data in the same column of
    different haplotypes are joined by fusion edges.  The graph-drawing object is
    kept as two lists, the nodes and the edges in the order they were added. */
module Graph {
  import opened Strings

  /** The node label `{name}_{i}_{x}` of element `x` at position `i` of sequence `name`. */
  function Label(name: string, i: nat, x: string): string {
    name + "_" + NatToString(i) + "_" + x
  }

  /** `make_sequence`: one label per element, tagged with the sequence name and the position. */
  function MakeSequence(s: seq<string>, name: string): seq<string> {
    seq(|s|, i requires 0 <= i < |s| => Label(name, i, s[i]))
  }

  /** `x.split('_', 1)[1]`: the text after the first underscore (an IndexError without one). */
  function Part(x: string): string
    requires '_' in x
  {
    if x[0] == '_' then x[1..]
    else
      assert x == [x[0]] + x[1..];
      Part(x[1..])
  }

  /** The part starts right after the first underscore that `IndexOf` finds. */
  lemma {:induction false} PartAfterFirst(x: string)
    requires '_' in x
    ensures Part(x) == x[IndexOf(x, '_').value + 1..]
  {
    if x[0] != '_' {
      assert x == [x[0]] + x[1..];
      PartAfterFirst(x[1..]);
    }
  }

  lemma PartAfterHead(head: string, rest: string)
    requires '_' !in head
    ensures Part(head + "_" + rest) == rest
  {
    var x := head + "_" + rest;
    assert x[..|head|] == head;
    IndexOfIsFirst(x, '_', |head|);
    PartAfterFirst(x);
    assert x[|head| + 1..] == rest;
  }

  lemma DigitsHaveNoUnderscore(i: nat)
    ensures '_' !in NatToString(i)
  {
    var d := NatToString(i);
    assert forall k :: 0 <= k < |d| ==> d[k] != '_';
  }

  /** When the sequence name holds no underscore, the part of a label is `{i}_{x}`:
      everything but the sequence name. */
  lemma LabelPart(name: string, i: nat, x: string)
    requires '_' !in name
    ensures '_' in Label(name, i, x)
    ensures Part(Label(name, i, x)) == NatToString(i) + "_" + x
  {
    assert Label(name, i, x) == name + "_" + (NatToString(i) + "_" + x);
    assert Label(name, i, x)[|name|] == '_';
    PartAfterHead(name, NatToString(i) + "_" + x);
  }

  /** Two texts of the shape `{head}_{rest}` with underscore-free heads agree only when
      their heads and their rests agree. */
  lemma HeadsAgree(h1: string, r1: string, h2: string, r2: string)
    requires '_' !in h1 && '_' !in h2
    ensures h1 + "_" + r1 == h2 + "_" + r2 ==> h1 == h2 && r1 == r2
  {
    if h1 + "_" + r1 == h2 + "_" + r2 {
      PartAfterHead(h1, r1);
      PartAfterHead(h2, r2);
      var l := h1 + "_" + r1;
      assert l[..|h1|] == h1 && l[..|h2|] == h2;
    }
  }

  /** A label determines its position and element, and also its sequence name when
      names are free of underscores. */
  lemma LabelInjective(n1: string, n2: string, i: nat, j: nat, x: string, y: string)
    requires n1 == n2 || ('_' !in n1 && '_' !in n2)
    ensures Label(n1, i, x) == Label(n2, j, y) ==> n1 == n2 && i == j && x == y
  {
    if Label(n1, i, x) == Label(n2, j, y) {
      var di, dj := NatToString(i), NatToString(j);
      var s, t := di + "_" + x, dj + "_" + y;
      assert Label(n1, i, x) == n1 + "_" + s && Label(n2, j, y) == n2 + "_" + t;
      if '_' !in n1 && '_' !in n2 {
        HeadsAgree(n1, s, n2, t);
      } else {
        var l := Label(n1, i, x);
        assert s == l[|n1| + 1..] == t;
      }
      DigitsHaveNoUnderscore(i);
      DigitsHaveNoUnderscore(j);
      HeadsAgree(di, x, dj, y);
      NatToStringInjective(i, j);
    }
  }

  /** `make_sequence` keeps the length, labels element `i` as `{name}_{i}_{x}`, and makes
      the labels unique ("unique nodes"), whatever the elements are. */
  lemma MakeSequenceLabels(s: seq<string>, name: string)
    ensures |MakeSequence(s, name)| == |s|
    ensures forall i :: 0 <= i < |s| ==> MakeSequence(s, name)[i] == Label(name, i, s[i])
    ensures Distinct(MakeSequence(s, name))
  {
    var labels := MakeSequence(s, name);
    forall i, j | 0 <= i < j < |s|
      ensures labels[i] != labels[j]
    {
      LabelInjective(name, name, i, j, s[i], s[j]);
    }
  }

  /** `pairwise(s)`: every element with its successor. */
  function Pairwise(s: seq<string>): (r: seq<(string, string)>)
    ensures |r| == if |s| == 0 then 0 else |s| - 1
    ensures forall k :: 0 <= k < |r| ==> r[k] == (s[k], s[k + 1])
  {
    if |s| < 2 then [] else [(s[0], s[1])] + Pairwise(s[1..])
  }

  /** `combinations(g, 2)`: every pair `(g[i], g[j])` with `i < j`, in lexicographic
      order of positions. */
  function Pairs(g: seq<string>): seq<(string, string)>
  {
    if |g| == 0 then []
    else seq(|g| - 1, k requires 0 <= k < |g| - 1 => (g[0], g[k + 1])) + Pairs(g[1..])
  }

  /** A group of k labels gives k(k-1)/2 fusion edges. */
  lemma {:induction false} PairsCount(g: seq<string>)
    ensures 2 * |Pairs(g)| == |g| * (|g| - 1)
  {
    if |g| > 0 {
      PairsCount(g[1..]);
      var n := |g|;
      assert (n - 1) * (n - 2) + 2 * (n - 1) == n * (n - 1);
    }
  }

  lemma {:induction false} PairsMembers(g: seq<string>, a: string, b: string)
    ensures (a, b) in Pairs(g) <==> exists i, j :: 0 <= i < j < |g| && g[i] == a && g[j] == b
  {
    if |g| > 0 {
      var head := seq(|g| - 1, k requires 0 <= k < |g| - 1 => (g[0], g[k + 1]));
      var tail := g[1..];
      assert Pairs(g) == head + Pairs(tail);
      PairsMembers(tail, a, b);
      if (a, b) in Pairs(g) {
        if (a, b) in head {
          var k :| 0 <= k < |head| && head[k] == (a, b);
          assert g[0] == a && g[k + 1] == b;
        } else {
          var i, j :| 0 <= i < j < |tail| && tail[i] == a && tail[j] == b;
          assert g[i + 1] == a && g[j + 1] == b;
        }
      }
      if exists i, j :: 0 <= i < j < |g| && g[i] == a && g[j] == b {
        var i, j :| 0 <= i < j < |g| && g[i] == a && g[j] == b;
        if i == 0 {
          assert head[j - 1] == (a, b);
        } else {
          assert tail[i - 1] == a && tail[j - 1] == b;
        }
      }
    }
  }

  /** The graph being drawn: the nodes and edges in the order they were added. */
  class Digraph {
    var nodes: seq<string>
    var edges: seq<(string, string)>

    constructor ()
      ensures nodes == [] && edges == []
    {
      nodes := [];
      edges := [];
    }

    method Node(x: string)
      modifies this
      ensures nodes == old(nodes) + [x] && edges == old(edges)
    {
      nodes := nodes + [x];
    }

    method Edge(a: string, b: string)
      modifies this
      ensures edges == old(edges) + [(a, b)] && nodes == old(nodes)
    {
      edges := edges + [(a, b)];
    }
  }

  /** `sequence_to_graph`: one node per element, in order, then one edge per
      consecutive pair. */
  method SequenceToGraph(g: Digraph, s: seq<string>)
    modifies g
    ensures g.nodes == old(g.nodes) + s
    ensures g.edges == old(g.edges) + Pairwise(s)
  {
    for k := 0 to |s|
      invariant g.nodes == old(g.nodes) + s[..k]
      invariant g.edges == old(g.edges)
    {
      g.Node(s[k]);
      assert s[..k + 1] == s[..k] + [s[k]];
    }
    assert s[..|s|] == s;
    var links := Pairwise(s);
    for k := 0 to |links|
      invariant g.nodes == old(g.nodes) + s
      invariant g.edges == old(g.edges) + links[..k]
    {
      g.Edge(links[k].0, links[k].1);
      assert links[..k + 1] == links[..k] + [links[k]];
    }
    assert links[..|links|] == links;
  }

  /** The length of the shortest sequence (0 when there are none). */
  function MinLen(seqs: seq<seq<string>>): (m: nat)
    ensures forall k :: 0 <= k < |seqs| ==> m <= |seqs[k]|
    ensures seqs != [] ==> exists k :: 0 <= k < |seqs| && m == |seqs[k]|
    ensures seqs == [] ==> m == 0
  {
    if |seqs| == 0 then 0
    else if |seqs| == 1 then |seqs[0]|
    else
      var r := MinLen(seqs[1..]);
      if |seqs[0]| <= r then |seqs[0]|
      else
        var k :| 0 <= k < |seqs[1..]| && r == |seqs[1..][k]|;
        assert r == |seqs[k + 1]|;
        r
  }

  /** `zip(*seqs)`: column `c` holds element `c` of every sequence; there are as many
      columns as the shortest sequence is long. */
  function Zip(seqs: seq<seq<string>>): (cols: seq<seq<string>>)
    ensures |cols| == MinLen(seqs)
    ensures forall c :: 0 <= c < |cols| ==> |cols[c]| == |seqs|
    ensures forall c, k :: 0 <= c < |cols| && 0 <= k < |seqs| ==> cols[c][k] == seqs[k][c]
  {
    var m := MinLen(seqs);
    seq(m, c requires 0 <= c < m => seq(|seqs|, k requires 0 <= k < |seqs| => seqs[k][c]))
  }

  /** Every label of the column has a part (an underscore). */
  predicate Parted(col: seq<string>) {
    forall k :: 0 <= k < |col| ==> '_' in col[k]
  }

  /** The keys of `groups` in the order they were first inserted: the distinct parts of
      the column. */
  function Keys(col: seq<string>): seq<string>
    requires Parted(col)
  {
    if col == [] then []
    else
      var init := col[..|col| - 1];
      var keys := Keys(init);
      var p := Part(col[|col| - 1]);
      assert forall k :: 0 <= k < |init| ==> init[k] == col[k];
      if p in keys then keys else keys + [p]
  }

  /** A key is inserted once: the keys are distinct. */
  lemma {:induction false} KeysDistinct(col: seq<string>)
    requires Parted(col)
    ensures Distinct(Keys(col))
  {
    if col != [] {
      var init := col[..|col| - 1];
      assert forall k :: 0 <= k < |init| ==> init[k] == col[k];
      KeysDistinct(init);
    }
  }

  /** Every part of the column is a key, and every key is the part of a label. */
  lemma {:induction false} KeysExact(col: seq<string>, key: string)
    requires Parted(col)
    ensures key in Keys(col) <==> exists k :: 0 <= k < |col| && Part(col[k]) == key
  {
    if col != [] {
      var init := col[..|col| - 1];
      var x := col[|col| - 1];
      assert forall k :: 0 <= k < |init| ==> init[k] == col[k];
      KeysExact(init, key);
      if key in Keys(init) {
        var k :| 0 <= k < |init| && Part(init[k]) == key;
        assert 0 <= k < |col| && Part(col[k]) == key;
      } else if Part(x) == key {
        assert 0 <= |col| - 1 < |col| && Part(col[|col| - 1]) == key;
      } else {
        assert key !in Keys(col);
        forall k | 0 <= k < |col|
          ensures Part(col[k]) != key
        {
          if k < |init| {
            assert col[k] == init[k];
          }
        }
      }
    }
  }

  /** `groups[key]`: the labels of the column whose part is `key`, in column order. */
  function Group(col: seq<string>, key: string): (g: seq<string>)
    requires Parted(col)
    ensures |g| <= |col|
  {
    if col == [] then []
    else
      var g := Group(col[..|col| - 1], key);
      var x := col[|col| - 1];
      if Part(x) == key then g + [x] else g
  }

  /** Reading one more label of the column. */
  lemma ColumnSnoc(col: seq<string>, x: string)
    requires Parted(col) && '_' in x
    ensures Parted(col + [x])
    ensures Keys(col + [x]) == if Part(x) in Keys(col) then Keys(col) else Keys(col) + [Part(x)]
    ensures forall key :: Group(col + [x], key) == if Part(x) == key then Group(col, key) + [x] else Group(col, key)
  {
    assert (col + [x])[..|col|] == col;
  }

  /** Where element `gi` of a group stands in the column. */
  lemma {:induction false} GroupMember(col: seq<string>, key: string, gi: nat) returns (i: nat)
    requires Parted(col) && gi < |Group(col, key)|
    ensures i < |col| && col[i] == Group(col, key)[gi] && Part(col[i]) == key
  {
    var init := col[..|col| - 1];
    var g0 := Group(init, key);
    assert forall k :: 0 <= k < |init| ==> init[k] == col[k];
    if gi < |g0| {
      i := GroupMember(init, key, gi);
    } else {
      i := |col| - 1;
    }
  }

  /** A key that no label of the column has names an empty group. */
  lemma AbsentKeyGroup(col: seq<string>, key: string)
    requires Parted(col)
    ensures key !in Keys(col) ==> Group(col, key) == []
  {
    if Group(col, key) != [] {
      var i := GroupMember(col, key, 0);
      KeysExact(col, key);
    }
  }

  /** Where a label of the column with part `key` stands in its group. */
  lemma {:induction false} ColumnMember(col: seq<string>, key: string, i: nat) returns (gi: nat)
    requires Parted(col) && i < |col| && Part(col[i]) == key
    ensures gi < |Group(col, key)| && Group(col, key)[gi] == col[i]
  {
    var init := col[..|col| - 1];
    var g0 := Group(init, key);
    assert forall k :: 0 <= k < |init| ==> init[k] == col[k];
    if i < |col| - 1 {
      gi := ColumnMember(init, key, i);
    } else {
      gi := |g0|;
    }
  }

  /** A group keeps the column order: two of its elements stand in the same order in
      the column. */
  lemma {:induction false} GroupToColumn(col: seq<string>, key: string, gi: nat, gj: nat) returns (i: nat, j: nat)
    requires Parted(col) && gi < gj < |Group(col, key)|
    ensures i < j < |col| && col[i] == Group(col, key)[gi] && col[j] == Group(col, key)[gj]
    ensures Part(col[i]) == key && Part(col[j]) == key
  {
    var init := col[..|col| - 1];
    var g0 := Group(init, key);
    assert forall k :: 0 <= k < |init| ==> init[k] == col[k];
    if gj < |g0| {
      i, j := GroupToColumn(init, key, gi, gj);
    } else {
      i := GroupMember(init, key, gi);
      j := |col| - 1;
    }
  }

  /** Two labels of the column with part `key` stand in the same order in the group. */
  lemma {:induction false} ColumnToGroup(col: seq<string>, key: string, i: nat, j: nat) returns (gi: nat, gj: nat)
    requires Parted(col) && i < j < |col| && Part(col[i]) == key && Part(col[j]) == key
    ensures gi < gj < |Group(col, key)| && Group(col, key)[gi] == col[i] && Group(col, key)[gj] == col[j]
  {
    var init := col[..|col| - 1];
    var g0 := Group(init, key);
    assert forall k :: 0 <= k < |init| ==> init[k] == col[k];
    if j < |col| - 1 {
      gi, gj := ColumnToGroup(init, key, i, j);
    } else {
      gi := ColumnMember(init, key, i);
      gj := |g0|;
    }
  }

  /** The fusion edges of the groups named by `keys`, group after group. */
  function GroupsEdges(col: seq<string>, keys: seq<string>): seq<(string, string)>
    requires Parted(col)
  {
    if keys == [] then []
    else GroupsEdges(col, keys[..|keys| - 1]) + Pairs(Group(col, keys[|keys| - 1]))
  }

  lemma {:induction false} GroupsEdgesMembers(col: seq<string>, keys: seq<string>, a: string, b: string)
    requires Parted(col)
    ensures (a, b) in GroupsEdges(col, keys) <==> exists m :: 0 <= m < |keys| && (a, b) in Pairs(Group(col, keys[m]))
  {
    if keys != [] {
      var init := keys[..|keys| - 1];
      GroupsEdgesMembers(col, init, a, b);
      assert forall m :: 0 <= m < |init| ==> init[m] == keys[m];
    }
  }

  /** The fusion edges `zip_sequences` draws for one column. */
  function ColumnEdges(col: seq<string>): seq<(string, string)>
    requires Parted(col)
  {
    GroupsEdges(col, Keys(col))
  }

  /** Within a column, `(a, b)` is a fusion edge exactly when `a` comes before `b` in the
      column and the two share their part: one edge per unordered pair of a group. */
  lemma ColumnEdgesExact(col: seq<string>, a: string, b: string)
    requires Parted(col)
    ensures (a, b) in ColumnEdges(col)
        <==> exists i, j :: 0 <= i < j < |col| && col[i] == a && col[j] == b && Part(a) == Part(b)
  {
    var keys := Keys(col);
    GroupsEdgesMembers(col, keys, a, b);
    if (a, b) in ColumnEdges(col) {
      var m :| 0 <= m < |keys| && (a, b) in Pairs(Group(col, keys[m]));
      var g := Group(col, keys[m]);
      PairsMembers(g, a, b);
      var gi, gj :| 0 <= gi < gj < |g| && g[gi] == a && g[gj] == b;
      var i, j := GroupToColumn(col, keys[m], gi, gj);
    }
    if exists i, j :: 0 <= i < j < |col| && col[i] == a && col[j] == b && Part(a) == Part(b) {
      var i, j :| 0 <= i < j < |col| && col[i] == a && col[j] == b && Part(a) == Part(b);
      var key := Part(a);
      KeysExact(col, key);
      var m :| 0 <= m < |keys| && keys[m] == key;
      var gi, gj := ColumnToGroup(col, key, i, j);
      PairsMembers(Group(col, key), a, b);
    }
  }

  /** No fusion edge joins a label to itself when the labels of the column are unique. */
  lemma ColumnEdgesNoLoops(col: seq<string>, a: string)
    requires Parted(col) && Distinct(col)
    ensures (a, a) !in ColumnEdges(col)
  {
    ColumnEdgesExact(col, a, a);
  }

  /** What one round of the outer loop of `zip_sequences` gives: the fusion edges of the
      column, or None when one of its labels has no underscore. */
  type Outcome = Option<seq<(string, string)>>

  function ColumnOutcome(col: seq<string>): Outcome {
    if Parted(col) then Some(ColumnEdges(col)) else None
  }

  /** The outcomes of the columns, in order. */
  function Outcomes(cols: seq<seq<string>>): (outs: seq<Outcome>)
    ensures |outs| == |cols|
    ensures forall c {:trigger ColumnOutcome(cols[c])} :: 0 <= c < |cols| ==> outs[c] == ColumnOutcome(cols[c])
  {
    if cols == [] then []
    else
      var init := cols[..|cols| - 1];
      assert forall c :: 0 <= c < |init| ==> init[c] == cols[c];
      Outcomes(init) + [ColumnOutcome(cols[|cols| - 1])]
  }

  /** The result of the outer loop: the edges drawn, and whether a label without an
      underscore stopped it. */
  datatype Fusion = Fusion(edges: seq<(string, string)>, failed: bool)

  /** The outer loop over the first `n` outcomes: edges accumulate, column after column,
      until the first column that fails, which stops the loop. */
  function Fuse(outs: seq<Outcome>, n: nat): Fusion
    requires n <= |outs|
  {
    if n == 0 then Fusion([], false)
    else
      var f := Fuse(outs, n - 1);
      if f.failed then f
      else
        match outs[n - 1]
        case None => Fusion(f.edges, true)
        case Some(e) => Fusion(f.edges + e, false)
  }

  /** The loop stops exactly when one of its columns fails. */
  lemma {:induction false} FuseFails(outs: seq<Outcome>, n: nat)
    requires n <= |outs|
    ensures Fuse(outs, n).failed <==> exists c :: 0 <= c < n && outs[c].None?
  {
    if n > 0 {
      FuseFails(outs, n - 1);
      if Fuse(outs, n - 1).failed {
        var c :| 0 <= c < n - 1 && outs[c].None?;
        assert 0 <= c < n && outs[c].None?;
      } else if outs[n - 1].None? {
        assert 0 <= n - 1 < n && outs[n - 1].None?;
      }
    }
  }

  /** One more round of the loop. */
  lemma FuseStep(outs: seq<Outcome>, c: nat)
    requires c < |outs| && !Fuse(outs, c).failed
    ensures Fuse(outs, c + 1)
         == if outs[c].Some? then Fusion(Fuse(outs, c).edges + outs[c].value, false)
            else Fusion(Fuse(outs, c).edges, true)
  {
  }

  /** Once a column stops the loop, later columns add nothing. */
  lemma {:induction false} FuseStopsAt(outs: seq<Outcome>, c: nat, n: nat)
    requires c < n <= |outs| && !Fuse(outs, c).failed && outs[c].None?
    ensures Fuse(outs, n) == Fusion(Fuse(outs, c).edges, true)
  {
    if n > c + 1 {
      FuseStopsAt(outs, c, n - 1);
    }
  }

  /** The edges of a completed loop are those of its columns: no other edge is drawn, and
      every column contributes all of its edges. */
  lemma {:induction false} FuseEdges(outs: seq<Outcome>, n: nat, a: string, b: string)
    requires n <= |outs| && !Fuse(outs, n).failed
    ensures forall c :: 0 <= c < n ==> outs[c].Some?
    ensures (a, b) in Fuse(outs, n).edges <==> exists c :: 0 <= c < n && (a, b) in outs[c].value
  {
    FuseFails(outs, n);
    if n > 0 {
      var done := Fuse(outs, n - 1);
      FuseEdges(outs, n - 1, a, b);
      assert Fuse(outs, n).edges == done.edges + outs[n - 1].value;
      if (a, b) in done.edges {
        var c :| 0 <= c < n - 1 && (a, b) in outs[c].value;
        assert 0 <= c < n && (a, b) in outs[c].value;
      } else if (a, b) in outs[n - 1].value {
        assert 0 <= n - 1 < n && (a, b) in outs[n - 1].value;
      }
    }
  }

  /** Over the columns of `zip_sequences`: the loop stops exactly when a label has no
      underscore, and otherwise it draws exactly the fusion edges of its columns. */
  lemma ColumnsFuse(cols: seq<seq<string>>, n: nat, a: string, b: string)
    requires n <= |cols|
    ensures Fuse(Outcomes(cols), n).failed <==> exists c :: 0 <= c < n && !Parted(cols[c])
    ensures !Fuse(Outcomes(cols), n).failed ==>
      ((a, b) in Fuse(Outcomes(cols), n).edges <==>
        exists c :: 0 <= c < n && Parted(cols[c]) && (a, b) in ColumnEdges(cols[c]))
  {
    var outs := Outcomes(cols);
    forall c | 0 <= c < n
      ensures outs[c] == ColumnOutcome(cols[c])
    {
    }
    FuseFails(outs, n);
    if !Fuse(outs, n).failed {
      FuseEdges(outs, n, a, b);
    }
  }

  /** Every edge of a completed loop joins two labels of one column, the earlier to the
      later, that share their part. */
  lemma FusionEdgeShape(cols: seq<seq<string>>, n: nat, a: string, b: string)
    requires n <= |cols| && !Fuse(Outcomes(cols), n).failed
    ensures (a, b) in Fuse(Outcomes(cols), n).edges ==>
      '_' in a && '_' in b && Part(a) == Part(b) &&
      exists c, i, j :: 0 <= c < n && 0 <= i < j < |cols[c]| && cols[c][i] == a && cols[c][j] == b
  {
    ColumnsFuse(cols, n, a, b);
    if (a, b) in Fuse(Outcomes(cols), n).edges {
      var c :| 0 <= c < n && Parted(cols[c]) && (a, b) in ColumnEdges(cols[c]);
      ColumnEdgesExact(cols[c], a, b);
      var i, j :| 0 <= i < j < |cols[c]| && cols[c][i] == a && cols[c][j] == b && Part(a) == Part(b);
      assert 0 <= c < n && 0 <= i < j < |cols[c]| && cols[c][i] == a && cols[c][j] == b;
    }
  }

  /** The whole run of `zip_sequences` over the columns of `allseqs`. */
  function Fused(allseqs: seq<seq<string>>): Fusion {
    var cols := Zip(allseqs);
    Fuse(Outcomes(cols), |cols|)
  }

  /** `keys` and `groups` hold what the first inner loop of `zip_sequences` has
      collected from the labels of `col`. */
  ghost predicate Grouped(col: seq<string>, keys: seq<string>, groups: map<string, seq<string>>) {
    Parted(col) && keys == Keys(col) &&
    (forall key :: key in groups <==> key in keys) &&
    (forall key :: key in groups ==> groups[key] == Group(col, key))
  }

  /** Appending a label whose part is already a key to that key's group keeps
      `Grouped`. */
  lemma GroupedSnocOld(col: seq<string>, x: string, keys: seq<string>, groups: map<string, seq<string>>)
    requires Grouped(col, keys, groups) && '_' in x && Part(x) in groups
    ensures Grouped(col + [x], keys, groups[Part(x) := groups[Part(x)] + [x]])
  {
    ColumnSnoc(col, x);
    var p := Part(x);
    var next := groups[p := groups[p] + [x]];
    assert Keys(col + [x]) == keys;
    forall key | key in next
      ensures next[key] == Group(col + [x], key)
    {
      if key == p {
        assert next[key] == Group(col, key) + [x];
      } else {
        assert next[key] == Group(col, key);
      }
    }
  }

  /** A label with a new part opens a new group under a new, last key, which keeps
      `Grouped`. */
  lemma GroupedSnocNew(col: seq<string>, x: string, keys: seq<string>, groups: map<string, seq<string>>)
    requires Grouped(col, keys, groups) && '_' in x && Part(x) !in groups
    ensures Grouped(col + [x], keys + [Part(x)], groups[Part(x) := [x]])
  {
    ColumnSnoc(col, x);
    AbsentKeyGroup(col, Part(x));
    var next := groups[Part(x) := [x]];
    assert Keys(col + [x]) == keys + [Part(x)];
    forall key | key in next
      ensures next[key] == Group(col + [x], key)
    {
    }
    assert forall key :: key in next <==> key in keys + [Part(x)];
  }

  /** The first inner loop of `zip_sequences` for one column: fill the `groups`
      dictionary, remembering the order in which its keys were first inserted.  It
      fails, as `x.split('_', 1)[1]` does, on a label without an underscore. */
  method GroupColumn(col: seq<string>) returns (ok: bool, keys: seq<string>, groups: map<string, seq<string>>)
    ensures ok == Parted(col)
    ensures ok ==> keys == Keys(col)
    ensures ok ==> forall key :: key in groups <==> key in keys
    ensures ok ==> forall key :: key in groups ==> groups[key] == Group(col, key)
  {
    keys, groups := [], map[];
    for k := 0 to |col|
      invariant Grouped(col[..k], keys, groups)
    {
      var x := col[k];
      var found := IndexOf(x, '_');
      if found.None? {
        assert !Parted(col);
        return false, keys, groups;
      }
      var part := x[found.value + 1..];
      PartAfterFirst(x);
      assert col[..k + 1] == col[..k] + [x];
      if part in groups {
        GroupedSnocOld(col[..k], x, keys, groups);
        groups := groups[part := groups[part] + [x]];
      } else {
        GroupedSnocNew(col[..k], x, keys, groups);
        keys := keys + [part];
        groups := groups[part := [x]];
      }
    }
    assert col[..|col|] == col;
    ok := true;
  }

  /** The innermost loop of `zip_sequences`: one edge per pair, in order. */
  method DrawPairs(g: Digraph, pairs: seq<(string, string)>)
    modifies g
    ensures g.nodes == old(g.nodes)
    ensures g.edges == old(g.edges) + pairs
  {
    for t := 0 to |pairs|
      invariant g.nodes == old(g.nodes)
      invariant g.edges == old(g.edges) + pairs[..t]
    {
      g.Edge(pairs[t].0, pairs[t].1);
      assert pairs[..t + 1] == pairs[..t] + [pairs[t]];
    }
    assert pairs[..|pairs|] == pairs;
  }

  /** The second inner loop of `zip_sequences`: for each group, in key order, one edge
      per pair of `combinations(group, 2)`. */
  method DrawGroups(g: Digraph, col: seq<string>, keys: seq<string>, groups: map<string, seq<string>>)
    requires Parted(col)
    requires forall key :: key in keys ==> key in groups && groups[key] == Group(col, key)
    modifies g
    ensures g.nodes == old(g.nodes)
    ensures g.edges == old(g.edges) + GroupsEdges(col, keys)
  {
    for m := 0 to |keys|
      invariant g.nodes == old(g.nodes)
      invariant g.edges == old(g.edges) + GroupsEdges(col, keys[..m])
    {
      DrawPairs(g, Pairs(groups[keys[m]]));
      assert keys[..m + 1][..m] == keys[..m];
    }
    assert keys[..|keys|] == keys;
  }

  /** One round of the outer loop of `zip_sequences`: group the column, then draw the
      groups' edges; nothing is drawn when a label has no underscore. */
  method FuseColumn(g: Digraph, col: seq<string>) returns (ok: bool)
    modifies g
    ensures ok == ColumnOutcome(col).Some?
    ensures g.nodes == old(g.nodes)
    ensures g.edges == old(g.edges) + if ok then ColumnOutcome(col).value else []
  {
    var keys, groups;
    ok, keys, groups := GroupColumn(col);
    if ok {
      DrawGroups(g, col, keys, groups);
    }
  }

  /** One round of the outer loop, stated as a step of `Fuse`: the drawn edges follow
      `base` as the loop's edges do. */
  method FuseNext(g: Digraph, cols: seq<seq<string>>, c: nat, ghost outs: seq<Outcome>, ghost base: seq<(string, string)>)
    returns (ok: bool)
    requires outs == Outcomes(cols) && c < |cols| && !Fuse(outs, c).failed
    requires g.edges == base + Fuse(outs, c).edges
    modifies g
    ensures g.nodes == old(g.nodes)
    ensures ok ==> !Fuse(outs, c + 1).failed && g.edges == base + Fuse(outs, c + 1).edges
    ensures !ok ==> outs[c].None? && g.edges == base + Fuse(outs, c).edges
  {
    ghost var done := Fuse(outs, c).edges;
    ok := FuseColumn(g, cols[c]);
    FuseStep(outs, c);
    assert outs[c] == ColumnOutcome(cols[c]);
    if ok {
      assert g.edges == base + (done + outs[c].value);
    } else {
      assert g.edges == old(g.edges);
    }
  }

  /** The outer loop of `zip_sequences`, column after column; a label without an
      underscore stops it (`ok` is false) after the earlier columns. */
  method FuseColumns(g: Digraph, cols: seq<seq<string>>) returns (ok: bool)
    modifies g
    ensures g.nodes == old(g.nodes)
    ensures g.edges == old(g.edges) + Fuse(Outcomes(cols), |cols|).edges
    ensures ok == !Fuse(Outcomes(cols), |cols|).failed
  {
    ghost var outs := Outcomes(cols);
    for c := 0 to |cols|
      invariant g.nodes == old(g.nodes)
      invariant !Fuse(outs, c).failed
      invariant g.edges == old(g.edges) + Fuse(outs, c).edges
    {
      var parted := FuseNext(g, cols, c, outs, old(g.edges));
      if !parted {
        FuseStopsAt(outs, c, |cols|);
        return false;
      }
    }
    return true;
  }

  /** `zip_sequences`: walk the columns (as many as the shortest sequence is long),
      group each column's labels by their part, and join every unordered pair of a
      group. */
  method ZipSequences(g: Digraph, allseqs: seq<seq<string>>) returns (ok: bool)
    modifies g
    ensures g.nodes == old(g.nodes)
    ensures g.edges == old(g.edges) + Fused(allseqs).edges
    ensures ok == !Fused(allseqs).failed
  {
    ok := FuseColumns(g, Zip(allseqs));
  }

  /** The columns of labelled sequences hold, at column `c`, the label of element `c` of
      each sequence; with distinct, underscore-free names every label has a part, the
      labels of a column are unique, and the part is `{c}_{x}`. */
  lemma LabelledColumns(data: seq<seq<string>>, names: seq<string>, seqs: seq<seq<string>>)
    requires |names| == |data| == |seqs|
    requires Distinct(names)
    requires forall k :: 0 <= k < |names| ==> '_' !in names[k]
    requires forall k :: 0 <= k < |seqs| ==> seqs[k] == MakeSequence(data[k], names[k])
    ensures forall c, k :: 0 <= c < |Zip(seqs)| && 0 <= k < |seqs| ==>
      c < |data[k]| && Zip(seqs)[c][k] == Label(names[k], c, data[k][c]) &&
      '_' in Zip(seqs)[c][k] && Part(Zip(seqs)[c][k]) == NatToString(c) + "_" + data[k][c]
    ensures forall c :: 0 <= c < |Zip(seqs)| ==> Parted(Zip(seqs)[c]) && Distinct(Zip(seqs)[c])
  {
    var cols := Zip(seqs);
    forall c, k | 0 <= c < |cols| && 0 <= k < |seqs|
      ensures cols[c][k] == Label(names[k], c, data[k][c])
      ensures '_' in cols[c][k] && Part(cols[c][k]) == NatToString(c) + "_" + data[k][c]
    {
      LabelPart(names[k], c, data[k][c]);
    }
    forall c, k1, k2 | 0 <= c < |cols| && 0 <= k1 < k2 < |seqs|
      ensures cols[c][k1] != cols[c][k2]
    {
      LabelInjective(names[k1], names[k2], c, c, data[k1][c], data[k2][c]);
    }
  }

  /** Columns whose labels all have parts and are unique never stop the run and never
      give an edge from a label to itself. */
  lemma FuseWithoutLoops(cols: seq<seq<string>>, n: nat)
    requires n <= |cols|
    requires forall c :: 0 <= c < n ==> Parted(cols[c]) && Distinct(cols[c])
    ensures !Fuse(Outcomes(cols), n).failed
    ensures forall a :: (a, a) !in Fuse(Outcomes(cols), n).edges
  {
    ColumnsFuse(cols, n, "", "");
    forall a
      ensures (a, a) !in Fuse(Outcomes(cols), n).edges
    {
      ColumnsFuse(cols, n, a, a);
      forall c | 0 <= c < n
        ensures (a, a) !in ColumnEdges(cols[c])
      {
        ColumnEdgesNoLoops(cols[c], a);
      }
    }
  }

  /** Two labels of one column, from sequences with underscore-free names, have the same
      part exactly when they carry the same element. */
  lemma LabelPartsAgree(n1: string, n2: string, c: nat, x: string, y: string)
    requires '_' !in n1 && '_' !in n2
    ensures '_' in Label(n1, c, x) && '_' in Label(n2, c, y)
    ensures Part(Label(n1, c, x)) == Part(Label(n2, c, y)) <==> x == y
  {
    LabelPart(n1, c, x);
    LabelPart(n2, c, y);
    var d := NatToString(c);
    assert x == (d + "_" + x)[|d| + 1..];
    assert y == (d + "_" + y)[|d| + 1..];
  }

  /** For the sequences the demo builds (`make_sequence` with distinct, underscore-free
      names): the walk never stops, no label is joined to itself, and two labels of a
      column fall into one group exactly when they carry the same element. */
  lemma LabelledSequencesFuse(data: seq<seq<string>>, names: seq<string>, seqs: seq<seq<string>>)
    requires |names| == |data| == |seqs|
    requires Distinct(names)
    requires forall k :: 0 <= k < |names| ==> '_' !in names[k]
    requires forall k :: 0 <= k < |seqs| ==> seqs[k] == MakeSequence(data[k], names[k])
    ensures !Fused(seqs).failed
    ensures forall a :: (a, a) !in Fused(seqs).edges
    ensures forall c, k1, k2 :: 0 <= c < |Zip(seqs)| && 0 <= k1 < |seqs| && 0 <= k2 < |seqs| ==>
      c < |data[k1]| && c < |data[k2]| && '_' in Zip(seqs)[c][k1] && '_' in Zip(seqs)[c][k2] &&
      (Part(Zip(seqs)[c][k1]) == Part(Zip(seqs)[c][k2]) <==> data[k1][c] == data[k2][c])
  {
    LabelledColumns(data, names, seqs);
    var cols := Zip(seqs);
    FuseWithoutLoops(cols, |cols|);
    forall c, k1, k2 | 0 <= c < |cols| && 0 <= k1 < |seqs| && 0 <= k2 < |seqs|
      ensures Part(cols[c][k1]) == Part(cols[c][k2]) <==> data[k1][c] == data[k2][c]
    {
      LabelPartsAgree(names[k1], names[k2], c, data[k1][c], data[k2][c]);
    }
  }
}
