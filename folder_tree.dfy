/**
 * The nested dict `print_file_structure` builds from object keys. A dict of dicts keyed by
 * segment is determined by its nodes, each named by its path from the root, listed in the
 * order they were inserted: a node's children are the nodes one segment longer that extend
 * it, in that order. `print_hierarchy` in s3_utils.py renders it one line per node.
 */
module FolderTree {

  /** A node of the tree, named by the segments on the path from the root to it. */
  type Node = seq<string>

  predicate IsPrefix(p: Node, n: Node)
  {
    |p| <= |n| && n[..|p|] == p
  }

  // ---------------------------------------------------------------------------
  // Building the tree
  // ---------------------------------------------------------------------------

  /**
   * One pass of the inner loop: from node `cur`, walk down `parts`, adding each child that is
   * not there yet (`if part not in current_level: current_level[part] = {}`).
   */
  function Walk(nodes: seq<Node>, cur: Node, parts: seq<string>): seq<Node>
    decreases |parts|
  {
    if parts == [] then nodes
    else
      var child := cur + [parts[0]];
      Walk(if child in nodes then nodes else nodes + [child], child, parts[1..])
  }

  /** The tree after inserting every key's segments, in order, into an empty dict. */
  function TreeOf(keys: seq<seq<string>>): seq<Node>
  {
    if keys == [] then [] else Walk(TreeOf(keys[..|keys| - 1]), [], keys[|keys| - 1])
  }

  /**
   * The inner loop of `print_file_structure`: insert one key's segments, moving
   * `current_level` one level down per segment.
   */
  method InsertKey(nodes: seq<Node>, parts: seq<string>) returns (r: seq<Node>)
    ensures r == Walk(nodes, [], parts)
  {
    r := nodes;
    var current: Node := [];
    var i := 0;
    while i < |parts|
      invariant 0 <= i <= |parts|
      invariant current == parts[..i]
      invariant Walk(nodes, [], parts) == Walk(r, current, parts[i..])
    {
      var part := parts[i];
      if current + [part] !in r {
        r := r + [current + [part]];
      }
      assert parts[..i + 1] == current + [part];
      assert parts[i..][1..] == parts[i + 1..];
      current := current + [part];
      i := i + 1;
    }
  }

  /** The outer loop of `print_file_structure`: insert every key, in order. */
  method BuildTree(keys: seq<seq<string>>) returns (nodes: seq<Node>)
    ensures nodes == TreeOf(keys)
    ensures WellFormed(nodes)
    ensures forall n :: n in nodes <==> InKeys(keys, n)
  {
    nodes := [];
    var k := 0;
    while k < |keys|
      invariant 0 <= k <= |keys|
      invariant nodes == TreeOf(keys[..k])
    {
      assert keys[..k + 1][..k] == keys[..k];
      nodes := InsertKey(nodes, keys[k]);
      k := k + 1;
    }
    assert keys[..k] == keys;
    TreeOfFacts(keys);
  }

  // ---------------------------------------------------------------------------
  // What the tree holds
  // ---------------------------------------------------------------------------

  /** No node twice, no empty node, and every non-empty prefix of a node is a node too. */
  predicate WellFormed(nodes: seq<Node>)
  {
    && Distinct(nodes)
    && (forall i :: 0 <= i < |nodes| ==> nodes[i] != [])
    && Closed(nodes, nodes)
  }

  /** Every non-empty prefix of `n` is in `target`. */
  predicate PrefixesIn(n: Node, target: seq<Node>)
  {
    forall len :: 1 <= len <= |n| ==> n[..len] in target
  }

  /** Every node of `src` has all its non-empty prefixes in `target`. */
  predicate Closed(src: seq<Node>, target: seq<Node>)
    decreases |src|
  {
    src == [] || (PrefixesIn(src[0], target) && Closed(src[1..], target))
  }

  lemma {:induction false} ClosedMember(src: seq<Node>, target: seq<Node>, n: Node)
    requires Closed(src, target) && n in src
    ensures PrefixesIn(n, target)
    decreases |src|
  {
    if src[0] != n {
      ClosedMember(src[1..], target, n);
    }
  }

  lemma {:induction false} ClosedGrow(src: seq<Node>, target: seq<Node>, x: Node)
    requires Closed(src, target)
    ensures Closed(src, target + [x])
    decreases |src|
  {
    if src != [] {
      ClosedGrow(src[1..], target, x);
    }
  }

  lemma {:induction false} ClosedSnoc(src: seq<Node>, target: seq<Node>, x: Node)
    requires Closed(src, target) && PrefixesIn(x, target)
    ensures Closed(src + [x], target)
    decreases |src|
  {
    if src == [] {
      assert [x][1..] == [];
    } else {
      assert (src + [x])[1..] == src[1..] + [x];
      ClosedSnoc(src[1..], target, x);
    }
  }

  /** Nothing is listed twice. */
  predicate Distinct<T(==)>(xs: seq<T>)
  {
    forall i, j :: 0 <= i < j < |xs| ==> xs[i] != xs[j]
  }

  /** `n` is a non-empty prefix of some key's segments. */
  predicate InKeys(keys: seq<seq<string>>, n: Node)
  {
    n != [] && exists i :: 0 <= i < |keys| && IsPrefix(n, keys[i])
  }

  /** The nodes a walk adds are the non-empty prefixes of `parts`, below `cur`. */
  lemma {:induction false} WalkMembers(nodes: seq<Node>, cur: Node, parts: seq<string>, n: Node)
    ensures n in Walk(nodes, cur, parts) <==>
      n in nodes || exists j :: 1 <= j <= |parts| && n == cur + parts[..j]
    decreases |parts|
  {
    if parts != [] {
      var child := cur + [parts[0]];
      var next := if child in nodes then nodes else nodes + [child];
      WalkMembers(next, child, parts[1..], n);
      forall j | 1 <= j <= |parts[1..]| ensures child + parts[1..][..j] == cur + parts[..j + 1] {
        assert parts[..j + 1] == [parts[0]] + parts[1..][..j];
      }
      if exists j :: 1 <= j <= |parts| && n == cur + parts[..j] {
        var j :| 1 <= j <= |parts| && n == cur + parts[..j];
        if j == 1 {
          assert parts[..1] == [parts[0]];
        } else {
          assert n == child + parts[1..][..j - 1];
        }
      }
      if exists j :: 1 <= j <= |parts[1..]| && n == child + parts[1..][..j] {
        var j :| 1 <= j <= |parts[1..]| && n == child + parts[1..][..j];
        assert n == cur + parts[..j + 1];
      }
      assert parts[..1] == [parts[0]];
    }
  }

  /** A walk from the root or from an existing node keeps the tree well formed. */
  lemma {:induction false} WalkWellFormed(nodes: seq<Node>, cur: Node, parts: seq<string>)
    requires WellFormed(nodes)
    requires cur == [] || cur in nodes
    ensures WellFormed(Walk(nodes, cur, parts))
    ensures |nodes| <= |Walk(nodes, cur, parts)|
    ensures forall i :: 0 <= i < |nodes| ==> Walk(nodes, cur, parts)[i] == nodes[i]
    decreases |parts|
  {
    if parts != [] {
      var child := cur + [parts[0]];
      if child !in nodes {
        var next := nodes + [child];
        assert WellFormed(next) by {
          assert PrefixesIn(child, next) by {
            if cur != [] {
              ClosedMember(nodes, nodes, cur);
            }
            forall len | 1 <= len <= |child| ensures child[..len] in next {
              if len <= |cur| {
                assert child[..len] == cur[..len];
              } else {
                assert child[..len] == child;
              }
            }
          }
          ClosedGrow(nodes, nodes, child);
          ClosedSnoc(nodes, next, child);
          assert Distinct(next) by {
            forall i, j | 0 <= i < j < |next| ensures next[i] != next[j] {
              if j == |nodes| {
                assert next[i] == nodes[i];
              }
            }
          }
        }
        WalkWellFormed(next, child, parts[1..]);
      } else {
        WalkWellFormed(nodes, child, parts[1..]);
      }
    }
  }

  lemma {:induction false} TreeOfFacts(keys: seq<seq<string>>)
    ensures WellFormed(TreeOf(keys))
    ensures forall n :: n in TreeOf(keys) <==> InKeys(keys, n)
  {
    if keys != [] {
      var init := keys[..|keys| - 1];
      var last := keys[|keys| - 1];
      TreeOfFacts(init);
      WalkWellFormed(TreeOf(init), [], last);
      forall n ensures n in TreeOf(keys) <==> InKeys(keys, n) {
        WalkMembers(TreeOf(init), [], last, n);
        if InKeys(keys, n) {
          var i :| 0 <= i < |keys| && IsPrefix(n, keys[i]);
          if i < |keys| - 1 {
            assert init[i] == keys[i];
          } else {
            assert n == [] + last[..|n|];
          }
        }
        if n in TreeOf(init) {
          var i :| 0 <= i < |init| && IsPrefix(n, init[i]);
          assert keys[i] == init[i];
        }
        if exists j :: 1 <= j <= |last| && n == [] + last[..j] {
          var j :| 1 <= j <= |last| && n == [] + last[..j];
          assert IsPrefix(n, keys[|keys| - 1]);
        }
      }
    }
  }

  /** A node is in the tree exactly when it is a non-empty prefix of some key. */
  lemma TreeOfMember(keys: seq<seq<string>>, n: Node)
    ensures n in TreeOf(keys) <==> InKeys(keys, n)
  {
    TreeOfFacts(keys);
  }

  /** The top-level nodes are the first segments of the non-empty keys. */
  lemma TopNode(keys: seq<seq<string>>, name: string)
    ensures [name] in TreeOf(keys) <==> exists i :: 0 <= i < |keys| && keys[i] != [] && keys[i][0] == name
  {
    TreeOfMember(keys, [name]);
    if exists i :: 0 <= i < |keys| && keys[i] != [] && keys[i][0] == name {
      var i :| 0 <= i < |keys| && keys[i] != [] && keys[i][0] == name;
      assert IsPrefix([name], keys[i]);
    }
    if InKeys(keys, [name]) {
      var i :| 0 <= i < |keys| && IsPrefix([name], keys[i]);
      assert keys[i][..1][0] == keys[i][0];
    }
  }

  /**
   * Inserting a key whose segments are already all in the tree changes nothing, so a key
   * listed twice adds no node.
   */
  lemma {:induction false} WalkPresent(nodes: seq<Node>, cur: Node, parts: seq<string>)
    requires forall j :: 1 <= j <= |parts| ==> cur + parts[..j] in nodes
    ensures Walk(nodes, cur, parts) == nodes
    decreases |parts|
  {
    if parts != [] {
      assert parts[..1] == [parts[0]];
      forall j | 1 <= j <= |parts[1..]| ensures (cur + [parts[0]]) + parts[1..][..j] in nodes {
        assert (cur + [parts[0]]) + parts[1..][..j] == cur + parts[..j + 1];
      }
      WalkPresent(nodes, cur + [parts[0]], parts[1..]);
    }
  }

  /** Listing a key a second time leaves the tree as it was. */
  lemma TreeIdempotent(keys: seq<seq<string>>, i: nat)
    requires i < |keys|
    ensures TreeOf(keys + [keys[i]]) == TreeOf(keys)
  {
    var all := keys + [keys[i]];
    assert all[..|all| - 1] == keys;
    TreeOfFacts(keys);
    forall j | 1 <= j <= |keys[i]| ensures [] + keys[i][..j] in TreeOf(keys) {
      assert IsPrefix([] + keys[i][..j], keys[i]);
    }
    WalkPresent(TreeOf(keys), [], keys[i]);
  }

  // ---------------------------------------------------------------------------
  // print_hierarchy
  // ---------------------------------------------------------------------------

  /** `c` is a child of `p`: one segment longer and extending it. */
  predicate IsChild(p: Node, c: Node)
  {
    |c| == |p| + 1 && c[..|p|] == p
  }

  /** The children of `p`, in insertion order. */
  function Children(nodes: seq<Node>, p: Node): (r: seq<Node>)
    ensures forall c {:trigger c in r} :: c in r <==> c in nodes && IsChild(p, c)
    ensures |r| <= |nodes|
  {
    if nodes == [] then []
    else
      var n := nodes[0];
      (if IsChild(p, n) then [n] else []) + Children(nodes[1..], p)
  }

  function MaxLen(nodes: seq<Node>): (m: nat)
    ensures forall n {:trigger n in nodes} :: n in nodes ==> |n| <= m
  {
    if nodes == [] then 0 else
      var rest := MaxLen(nodes[1..]);
      assert forall n {:trigger n in nodes} :: n in nodes ==> n == nodes[0] || n in nodes[1..];
      if |nodes[0]| > rest then |nodes[0]| else rest
  }

  function Dashes(n: nat): (s: string)
    ensures |s| == n && forall i :: 0 <= i < n ==> s[i] == '-'
  {
    if n == 0 then "" else Dashes(n - 1) + "-"
  }

  /** `f"|{'-' * indent}-{folder}"`. */
  function Line(indent: nat, name: string): string
  {
    "|" + Dashes(indent) + "-" + name
  }

  /**
   * `print_hierarchy(level, indent)` over the nodes `kids` of depth `depth`: each kid's line,
   * then its children two dashes further in, then the next kid.
   */
  function RenderLevel(nodes: seq<Node>, kids: seq<Node>, depth: nat, indent: nat): seq<string>
    requires forall k :: k in kids ==> k in nodes && |k| == depth && depth >= 1
    decreases MaxLen(nodes) + 1 - depth, |kids|
  {
    if kids == [] then []
    else
      var k := kids[0];
      [Line(indent, k[depth - 1])]
      + RenderLevel(nodes, Children(nodes, k), depth + 1, indent + 2)
      + RenderLevel(nodes, kids[1..], depth, indent)
  }

  /** All the lines `print_hierarchy(folder_structure)` prints. */
  function Render(nodes: seq<Node>): seq<string>
  {
    RenderLevel(nodes, Children(nodes, []), 1, 0)
  }

  /** `n` is one of `kids` or lies below one of them. */
  ghost predicate Below(kids: seq<Node>, n: Node)
  {
    exists k :: k in kids && IsPrefix(k, n)
  }

  /** The nodes at or below one of `kids`. */
  ghost function Under(nodes: seq<Node>, kids: seq<Node>): set<Node>
  {
    set n | n in nodes && Below(kids, n)
  }

  /** In a well-formed tree every non-empty prefix of a node is a node. */
  lemma PrefixesPresent(nodes: seq<Node>, n: Node, len: nat)
    requires WellFormed(nodes) && n in nodes && 1 <= len <= |n|
    ensures n[..len] in nodes
  {
    ClosedMember(nodes, nodes, n);
  }

  /** A node strictly below `k` lies under one of `k`'s children. */
  lemma BelowChild(nodes: seq<Node>, k: Node, n: Node)
    requires WellFormed(nodes) && k in nodes && n in nodes
    requires IsPrefix(k, n) && n != k
    ensures Below(Children(nodes, k), n)
  {
    PrefixesPresent(nodes, n, |k| + 1);
    var c := n[..|k| + 1];
    assert c[..|k|] == k;
    assert c in Children(nodes, k) && IsPrefix(c, n);
  }

  lemma BelowParent(nodes: seq<Node>, k: Node, n: Node)
    requires Below(Children(nodes, k), n)
    ensures IsPrefix(k, n) && n != k
  {
    var c :| c in Children(nodes, k) && IsPrefix(c, n);
    assert n[..|k|] == c[..|k|];
  }

  /** The nodes at or below `k` are `k` and those below its children. */
  lemma UnderOne(nodes: seq<Node>, k: Node)
    requires WellFormed(nodes) && k in nodes
    ensures Under(nodes, [k]) == {k} + Under(nodes, Children(nodes, k))
    ensures k !in Under(nodes, Children(nodes, k))
  {
    forall n | n in Under(nodes, [k]) && n != k ensures n in Under(nodes, Children(nodes, k)) {
      BelowChild(nodes, k, n);
    }
    forall n | n in Under(nodes, Children(nodes, k)) ensures n in Under(nodes, [k]) && n != k {
      BelowParent(nodes, k, n);
    }
    assert IsPrefix(k, k);
  }

  /** Nodes below different kids of one depth are different. */
  lemma UnderSplit(nodes: seq<Node>, kids: seq<Node>, depth: nat)
    requires kids != []
    requires forall k :: k in kids ==> |k| == depth
    requires Distinct(kids)
    ensures Under(nodes, kids) == Under(nodes, [kids[0]]) + Under(nodes, kids[1..])
    ensures Under(nodes, [kids[0]]) !! Under(nodes, kids[1..])
  {
    forall n | n in Under(nodes, kids[1..]) ensures n !in Under(nodes, [kids[0]]) {
      var k :| k in kids[1..] && IsPrefix(k, n);
      var j :| 0 <= j < |kids[1..]| && kids[1..][j] == k;
      assert kids[j + 1] == k && k != kids[0];
      assert n[..depth] == k;
    }
    forall n | n in Under(nodes, kids) ensures n in Under(nodes, [kids[0]]) + Under(nodes, kids[1..]) {
      var k :| k in kids && IsPrefix(k, n);
      if k != kids[0] {
        var j :| 0 <= j < |kids| && kids[j] == k;
        assert kids[1..][j - 1] == k;
      }
    }
  }

  lemma ChildrenDistinct(nodes: seq<Node>, p: Node)
    requires Distinct(nodes)
    ensures Distinct(Children(nodes, p))
    decreases |nodes|
  {
    if nodes != [] {
      ChildrenDistinct(nodes[1..], p);
      var rest := Children(nodes[1..], p);
      assert nodes[0] !in nodes[1..];
      assert nodes[0] !in rest;
    }
  }

  /** One kid's line, then its children's lines, then the other kids' lines. */
  lemma RenderLevelUnfold(nodes: seq<Node>, kids: seq<Node>, depth: nat, indent: nat)
    requires forall k :: k in kids ==> k in nodes && |k| == depth && depth >= 1
    requires kids != []
    ensures |kids[0]| == depth
    ensures RenderLevel(nodes, kids, depth, indent)
      == [Line(indent, kids[0][depth - 1])] + RenderLevel(nodes, Children(nodes, kids[0]), depth + 1, indent + 2)
         + RenderLevel(nodes, kids[1..], depth, indent)
  {
    assert kids[0] in kids;
  }

  /** The count for `kids` from the counts for the first kid's children and for the other kids. */
  lemma UnderCount(nodes: seq<Node>, kids: seq<Node>, depth: nat)
    requires WellFormed(nodes)
    requires forall k :: k in kids ==> k in nodes && |k| == depth
    requires Distinct(kids)
    requires kids != []
    ensures |Under(nodes, kids)| == 1 + |Under(nodes, Children(nodes, kids[0]))| + |Under(nodes, kids[1..])|
  {
    var k := kids[0];
    UnderOne(nodes, k);
    UnderSplit(nodes, kids, depth);
  }

  /** The count for `kids` follows from the counts for the first kid's children and for the other kids. */
  lemma RenderLevelCountStep(nodes: seq<Node>, kids: seq<Node>, depth: nat, indent: nat)
    requires WellFormed(nodes)
    requires forall k :: k in kids ==> k in nodes && |k| == depth && depth >= 1
    requires Distinct(kids) && kids != []
    requires |RenderLevel(nodes, Children(nodes, kids[0]), depth + 1, indent + 2)|
      == |Under(nodes, Children(nodes, kids[0]))|
    requires |RenderLevel(nodes, kids[1..], depth, indent)| == |Under(nodes, kids[1..])|
    ensures |RenderLevel(nodes, kids, depth, indent)| == |Under(nodes, kids)|
  {
    RenderLevelUnfold(nodes, kids, depth, indent);
    UnderCount(nodes, kids, depth);
  }

  /** The first kid's children form a level one deeper. */
  lemma ChildLevel(nodes: seq<Node>, kids: seq<Node>, depth: nat)
    requires Distinct(nodes)
    requires forall k :: k in kids ==> k in nodes && |k| == depth && depth >= 1
    requires kids != []
    ensures depth + 1 <= MaxLen(nodes) + 1
    ensures forall c :: c in Children(nodes, kids[0]) ==> c in nodes && |c| == depth + 1 && depth + 1 >= 1
    ensures Distinct(Children(nodes, kids[0]))
  {
    assert kids[0] in kids;
    ChildrenDistinct(nodes, kids[0]);
  }

  /** The kids after the first form the same level. */
  lemma RestLevel(nodes: seq<Node>, kids: seq<Node>, depth: nat)
    requires forall k :: k in kids ==> k in nodes && |k| == depth && depth >= 1
    requires Distinct(kids) && kids != []
    ensures forall k :: k in kids[1..] ==> k in nodes && |k| == depth && depth >= 1
    ensures Distinct(kids[1..])
  {
    var rest := kids[1..];
    forall i, j | 0 <= i < j < |rest| ensures rest[i] != rest[j] {
      assert rest[i] == kids[i + 1] && rest[j] == kids[j + 1];
    }
  }

  /** Rendering the kids prints exactly one line per node at or below them. */
  lemma {:induction false} RenderLevelCount(nodes: seq<Node>, kids: seq<Node>, depth: nat, indent: nat)
    requires WellFormed(nodes)
    requires forall k :: k in kids ==> k in nodes && |k| == depth && depth >= 1
    requires Distinct(kids)
    ensures |RenderLevel(nodes, kids, depth, indent)| == |Under(nodes, kids)|
    decreases MaxLen(nodes) + 1 - depth, |kids|
  {
    if kids == [] {
      assert Under(nodes, kids) == {};
    } else {
      ChildLevel(nodes, kids, depth);
      RestLevel(nodes, kids, depth);
      RenderLevelCount(nodes, Children(nodes, kids[0]), depth + 1, indent + 2);
      RenderLevelCount(nodes, kids[1..], depth, indent);
      RenderLevelCountStep(nodes, kids, depth, indent);
    }
  }

  /** Every node lies under one of the top-level nodes. */
  lemma UnderTop(nodes: seq<Node>)
    requires WellFormed(nodes)
    ensures Under(nodes, Children(nodes, [])) == set n | n in nodes
  {
    forall n | n in nodes ensures n in Under(nodes, Children(nodes, [])) {
      PrefixesPresent(nodes, n, 1);
      assert n[..1][..0] == [];
      assert IsChild([], n[..1]) && IsPrefix(n[..1], n);
    }
  }

  /** `print_hierarchy` prints one line per node of a well-formed tree. */
  lemma RenderCount(nodes: seq<Node>)
    requires WellFormed(nodes)
    ensures |Render(nodes)| == |nodes|
  {
    ChildrenDistinct(nodes, []);
    RenderLevelCount(nodes, Children(nodes, []), 1, 0);
    UnderTop(nodes);
    DistinctCard(nodes);
  }

  /** A list without repeats has as many elements as its set. */
  lemma {:induction false} DistinctCard(nodes: seq<Node>)
    requires Distinct(nodes)
    ensures |set n | n in nodes| == |nodes|
  {
    if nodes != [] {
      DistinctCard(nodes[1..]);
      assert (set n | n in nodes) == {nodes[0]} + (set n | n in nodes[1..]);
      assert nodes[0] !in nodes[1..];
    }
  }

  /** `line` is what `print_hierarchy` prints for some node at least `depth` deep. */
  ghost predicate NodeLine(nodes: seq<Node>, depth: nat, indent: nat, line: string)
  {
    exists n :: n in nodes && |n| >= depth && |n| >= 1 && line == Line(indent + 2 * (|n| - depth), n[|n| - 1])
  }

  /** A line of the first kid's subtree, seen one level up. */
  lemma NodeLineUp(nodes: seq<Node>, depth: nat, indent: nat, line: string)
    requires NodeLine(nodes, depth + 1, indent + 2, line)
    ensures NodeLine(nodes, depth, indent, line)
  {
    var n :| n in nodes && |n| >= depth + 1 && |n| >= 1 && line == Line(indent + 2 + 2 * (|n| - (depth + 1)), n[|n| - 1]);
    assert indent + 2 + 2 * (|n| - (depth + 1)) == indent + 2 * (|n| - depth);
    assert n in nodes && |n| >= depth && |n| >= 1 && line == Line(indent + 2 * (|n| - depth), n[|n| - 1]);
  }

  /** The first kid's own line is a node line. */
  lemma FirstLine(nodes: seq<Node>, kids: seq<Node>, depth: nat, indent: nat)
    requires forall k :: k in kids ==> k in nodes && |k| == depth && depth >= 1
    requires kids != []
    ensures |kids[0]| == depth
    ensures NodeLine(nodes, depth, indent, Line(indent, kids[0][depth - 1]))
  {
    var k := kids[0];
    assert k in kids;
    assert Line(indent, k[depth - 1]) == Line(indent + 2 * (|k| - depth), k[|k| - 1]);
  }

  /** Every kid is a node `depth` segments long. */
  predicate AtDepth(nodes: seq<Node>, kids: seq<Node>, depth: nat)
  {
    forall k {:trigger k in kids} :: k in kids ==> k in nodes && |k| == depth && depth >= 1
  }

  /** The first kid's children are one level deeper, and the other kids stay at this level. */
  lemma LowerLevels(nodes: seq<Node>, kids: seq<Node>, depth: nat)
    requires AtDepth(nodes, kids, depth) && kids != []
    ensures depth <= MaxLen(nodes)
    ensures AtDepth(nodes, Children(nodes, kids[0]), depth + 1)
    ensures AtDepth(nodes, kids[1..], depth)
  {
    assert kids[0] in kids;
    forall k | k in kids[1..] ensures k in kids {
    }
  }

  /** Every printed line is the line of some node: its depth sets the dashes and its last segment the name. */
  lemma {:induction false} RenderLines(nodes: seq<Node>, kids: seq<Node>, depth: nat, indent: nat, line: string)
    requires AtDepth(nodes, kids, depth)
    requires line in RenderLevel(nodes, kids, depth, indent)
    ensures NodeLine(nodes, depth, indent, line)
    decreases MaxLen(nodes) + 1 - depth, |kids|
  {
    LineSource(nodes, kids, depth, indent, line);
    LowerLevels(nodes, kids, depth);
    if line in RenderLevel(nodes, Children(nodes, kids[0]), depth + 1, indent + 2) {
      RenderLines(nodes, Children(nodes, kids[0]), depth + 1, indent + 2, line);
      NodeLineUp(nodes, depth, indent, line);
    } else if line in RenderLevel(nodes, kids[1..], depth, indent) {
      RenderLines(nodes, kids[1..], depth, indent, line);
    } else {
      FirstLine(nodes, kids, depth, indent);
    }
  }

  /** A printed line is the first kid's, one of its subtree's, or one of the other kids'. */
  lemma LineSource(nodes: seq<Node>, kids: seq<Node>, depth: nat, indent: nat, line: string)
    requires AtDepth(nodes, kids, depth)
    requires line in RenderLevel(nodes, kids, depth, indent)
    ensures kids != [] && |kids[0]| == depth
    ensures line == Line(indent, kids[0][depth - 1])
      || line in RenderLevel(nodes, Children(nodes, kids[0]), depth + 1, indent + 2)
      || line in RenderLevel(nodes, kids[1..], depth, indent)
  {
    RenderLevelUnfold(nodes, kids, depth, indent);
  }

  /** Every line `print_hierarchy` prints is some node's name, indented two dashes per level below the top. */
  lemma RenderedLines(nodes: seq<Node>, line: string)
    requires line in Render(nodes)
    ensures exists n :: n in nodes && |n| >= 1 && line == Line(2 * (|n| - 1), n[|n| - 1])
  {
    RenderLines(nodes, Children(nodes, []), 1, 0, line);
  }

  // ---------------------------------------------------------------------------
  // The order of the printed lines
  // ---------------------------------------------------------------------------

  /**
   * The nodes in the order `print_hierarchy` visits them: each kid, then the nodes below it,
   * then the next kid; a node's children come in insertion order.
   */
  function PreOrder(nodes: seq<Node>, kids: seq<Node>, depth: nat): (r: seq<Node>)
    requires AtDepth(nodes, kids, depth)
    ensures forall n {:trigger n in r} :: n in r ==> n in nodes && |n| >= depth && |n| >= 1
    decreases MaxLen(nodes) + 1 - depth, |kids|
  {
    if kids == [] then []
    else
      LowerLevels(nodes, kids, depth);
      assert kids[0] in kids;
      [kids[0]] + PreOrder(nodes, Children(nodes, kids[0]), depth + 1) + PreOrder(nodes, kids[1..], depth)
  }

  /** A level's listing: the first kid, the nodes below it, then the other kids' listing. */
  lemma PreOrderUnfold(nodes: seq<Node>, kids: seq<Node>, depth: nat)
    requires AtDepth(nodes, kids, depth) && kids != []
    ensures |kids[0]| == depth && depth <= MaxLen(nodes)
    ensures AtDepth(nodes, Children(nodes, kids[0]), depth + 1) && AtDepth(nodes, kids[1..], depth)
    ensures PreOrder(nodes, kids, depth)
      == [kids[0]] + PreOrder(nodes, Children(nodes, kids[0]), depth + 1) + PreOrder(nodes, kids[1..], depth)
  {
    LowerLevels(nodes, kids, depth);
    assert kids[0] in kids;
  }

  /** `lines[i]` is the line of `pre[i]`, for nodes listed from depth `depth` at `indent`. */
  ghost predicate RendersAs(lines: seq<string>, pre: seq<Node>, depth: nat, indent: nat)
  {
    && |lines| == |pre|
    && forall i :: 0 <= i < |pre| ==>
         |pre[i]| >= depth && |pre[i]| >= 1 && lines[i] == Line(indent + 2 * (|pre[i]| - depth), pre[i][|pre[i]| - 1])
  }

  lemma RendersAsAppend(l1: seq<string>, p1: seq<Node>, l2: seq<string>, p2: seq<Node>, depth: nat, indent: nat)
    requires RendersAs(l1, p1, depth, indent) && RendersAs(l2, p2, depth, indent)
    ensures RendersAs(l1 + l2, p1 + p2, depth, indent)
  {
    forall i | |p1| <= i < |p1 + p2|
      ensures (l1 + l2)[i] == l2[i - |p1|] && (p1 + p2)[i] == p2[i - |p1|]
    {
    }
  }

  /** Lines rendered one level deeper and two dashes further in are the same lines seen from above. */
  lemma RendersAsDeeper(lines: seq<string>, pre: seq<Node>, depth: nat, indent: nat)
    requires RendersAs(lines, pre, depth + 1, indent + 2)
    ensures RendersAs(lines, pre, depth, indent)
  {
    forall i | 0 <= i < |pre|
      ensures indent + 2 + 2 * (|pre[i]| - (depth + 1)) == indent + 2 * (|pre[i]| - depth)
    {
    }
  }

  /** One kid's line, its subtree's lines and the other kids' lines, put together. */
  lemma RendersAsStep(k: Node, lines1: seq<string>, pre1: seq<Node>, lines2: seq<string>, pre2: seq<Node>,
                      depth: nat, indent: nat)
    requires |k| == depth && depth >= 1
    requires RendersAs(lines1, pre1, depth + 1, indent + 2) && RendersAs(lines2, pre2, depth, indent)
    ensures RendersAs([Line(indent, k[depth - 1])] + lines1 + lines2, [k] + pre1 + pre2, depth, indent)
  {
    RendersAsDeeper(lines1, pre1, depth, indent);
    assert RendersAs([Line(indent, k[depth - 1])], [k], depth, indent);
    RendersAsAppend([Line(indent, k[depth - 1])], [k], lines1, pre1, depth, indent);
    RendersAsAppend([Line(indent, k[depth - 1])] + lines1, [k] + pre1, lines2, pre2, depth, indent);
  }

  /** `print_hierarchy` over `kids` prints, line by line, the lines of their pre-order listing. */
  lemma {:induction false} RenderLevelPreOrder(nodes: seq<Node>, kids: seq<Node>, depth: nat, indent: nat)
    requires AtDepth(nodes, kids, depth)
    ensures RendersAs(RenderLevel(nodes, kids, depth, indent), PreOrder(nodes, kids, depth), depth, indent)
    decreases MaxLen(nodes) + 1 - depth, |kids|
  {
    if kids != [] {
      var k := kids[0];
      PreOrderUnfold(nodes, kids, depth);
      RenderLevelUnfold(nodes, kids, depth, indent);
      var ch := Children(nodes, k);
      RenderLevelPreOrder(nodes, ch, depth + 1, indent + 2);
      RenderLevelPreOrder(nodes, kids[1..], depth, indent);
      RendersAsStep(k, RenderLevel(nodes, ch, depth + 1, indent + 2), PreOrder(nodes, ch, depth + 1),
                    RenderLevel(nodes, kids[1..], depth, indent), PreOrder(nodes, kids[1..], depth), depth, indent);
    }
  }

  lemma DistinctAppend<T>(a: seq<T>, b: seq<T>)
    requires Distinct(a) && Distinct(b)
    requires forall x :: x in a ==> x !in b
    ensures Distinct(a + b)
  {
    forall i, j | 0 <= i < j < |a + b| ensures (a + b)[i] != (a + b)[j] {
      if j < |a| {
        assert (a + b)[i] == a[i] && (a + b)[j] == a[j];
      } else if i < |a| {
        assert (a + b)[i] == a[i] && (a + b)[j] == b[j - |a|];
        assert a[i] in a;
      } else {
        assert (a + b)[i] == b[i - |a|] && (a + b)[j] == b[j - |a|];
      }
    }
  }

  /** Every listed node lies at or below one of the kids. */
  lemma {:induction false} PreOrderBelow(nodes: seq<Node>, kids: seq<Node>, depth: nat, n: Node)
    requires AtDepth(nodes, kids, depth)
    requires n in PreOrder(nodes, kids, depth)
    ensures Below(kids, n)
    decreases MaxLen(nodes) + 1 - depth, |kids|
  {
    var k := kids[0];
    LowerLevels(nodes, kids, depth);
    assert k in kids;
    if n == k {
      assert IsPrefix(k, n);
    } else if n in PreOrder(nodes, Children(nodes, k), depth + 1) {
      PreOrderBelow(nodes, Children(nodes, k), depth + 1, n);
      BelowParent(nodes, k, n);
    } else {
      PreOrderBelow(nodes, kids[1..], depth, n);
      var c :| c in kids[1..] && IsPrefix(c, n);
      assert c in kids;
    }
  }

  /** The listing holds every node at or below the kids, once each. */
  lemma {:induction false} PreOrderNodes(nodes: seq<Node>, kids: seq<Node>, depth: nat)
    requires WellFormed(nodes) && AtDepth(nodes, kids, depth) && Distinct(kids)
    ensures Distinct(PreOrder(nodes, kids, depth))
    ensures forall n :: n in PreOrder(nodes, kids, depth) <==> n in Under(nodes, kids)
    decreases MaxLen(nodes) + 1 - depth, |kids|
  {
    if kids == [] {
      assert Under(nodes, kids) == {};
    } else {
      var k := kids[0];
      ChildLevel(nodes, kids, depth);
      RestLevel(nodes, kids, depth);
      LowerLevels(nodes, kids, depth);
      var ch := Children(nodes, k);
      PreOrderNodes(nodes, ch, depth + 1);
      PreOrderNodes(nodes, kids[1..], depth);
      assert k in kids;
      UnderOne(nodes, k);
      UnderSplit(nodes, kids, depth);
      var p1, p2 := PreOrder(nodes, ch, depth + 1), PreOrder(nodes, kids[1..], depth);
      DistinctAppend([k], p1);
      DistinctAppend([k] + p1, p2);
      assert PreOrder(nodes, kids, depth) == [k] + p1 + p2;
    }
  }

  /**
   * `print_hierarchy(folder_structure)` prints, in order, one line for each node of the tree's
   * pre-order listing, and that listing names every node exactly once.
   */
  lemma RenderPreOrder(nodes: seq<Node>)
    requires WellFormed(nodes)
    ensures var pre := PreOrder(nodes, Children(nodes, []), 1);
      && Distinct(pre) && |pre| == |nodes| && (forall n :: n in pre <==> n in nodes)
      && |Render(nodes)| == |pre|
      && forall i :: 0 <= i < |pre| ==>
           |pre[i]| >= 1 && Render(nodes)[i] == Line(2 * (|pre[i]| - 1), pre[i][|pre[i]| - 1])
  {
    TopPreOrder(nodes);
    RenderLevelPreOrder(nodes, Children(nodes, []), 1, 0);
    RenderCount(nodes);
  }

  /** From the top, the visiting order lists every node of a well-formed trie exactly once. */
  lemma TopPreOrder(nodes: seq<Node>)
    requires WellFormed(nodes)
    ensures var pre := PreOrder(nodes, Children(nodes, []), 1);
      Distinct(pre) && forall n :: n in pre <==> n in nodes
  {
    var top := Children(nodes, []);
    ChildrenDistinct(nodes, []);
    PreOrderNodes(nodes, top, 1);
    UnderTop(nodes);
  }

  /** Where a kid is listed in its level's listing. */
  lemma {:induction false} KidIndex(nodes: seq<Node>, kids: seq<Node>, depth: nat, m: nat) returns (b: nat)
    requires AtDepth(nodes, kids, depth) && m < |kids|
    ensures b < |PreOrder(nodes, kids, depth)| && PreOrder(nodes, kids, depth)[b] == kids[m]
    decreases |kids|
  {
    PreOrderUnfold(nodes, kids, depth);
    var head := [kids[0]] + PreOrder(nodes, Children(nodes, kids[0]), depth + 1);
    var p2 := PreOrder(nodes, kids[1..], depth);
    assert PreOrder(nodes, kids, depth) == head + p2;
    if m == 0 {
      b := 0;
    } else {
      var c := KidIndex(nodes, kids[1..], depth, m - 1);
      assert kids[1..][m - 1] == kids[m];
      b := |head| + c;
      assert (head + p2)[b] == p2[c];
    }
  }

  /** The kids of one level are listed in their own order: where kid `i` and kid `j > i` are listed. */
  lemma {:induction false} KidsInOrder(nodes: seq<Node>, kids: seq<Node>, depth: nat, i: nat, j: nat)
    returns (a: nat, b: nat)
    requires AtDepth(nodes, kids, depth) && i < j < |kids|
    ensures a < b < |PreOrder(nodes, kids, depth)|
    ensures PreOrder(nodes, kids, depth)[a] == kids[i] && PreOrder(nodes, kids, depth)[b] == kids[j]
    decreases |kids|, 1
  {
    if i == 0 {
      a, b := FirstKidFirst(nodes, kids, depth, j);
    } else {
      a, b := LaterKidsInOrder(nodes, kids, depth, i, j);
    }
  }

  /** The first kid is listed first, before every other kid. */
  lemma FirstKidFirst(nodes: seq<Node>, kids: seq<Node>, depth: nat, j: nat) returns (a: nat, b: nat)
    requires AtDepth(nodes, kids, depth) && 0 < j < |kids|
    ensures a == 0 && a < b < |PreOrder(nodes, kids, depth)|
    ensures PreOrder(nodes, kids, depth)[a] == kids[0] && PreOrder(nodes, kids, depth)[b] == kids[j]
  {
    PreOrderUnfold(nodes, kids, depth);
    var head := [kids[0]] + PreOrder(nodes, Children(nodes, kids[0]), depth + 1);
    var p2 := PreOrder(nodes, kids[1..], depth);
    assert PreOrder(nodes, kids, depth) == head + p2;
    assert kids[1..][j - 1] == kids[j];
    var c := KidIndex(nodes, kids[1..], depth, j - 1);
    a, b := 0, |head| + c;
    ConcatAt(head, p2, c);
    assert (head + p2)[0] == kids[0];
  }

  /** Two later kids are listed in order because they are in the other kids' listing. */
  lemma {:induction false} LaterKidsInOrder(nodes: seq<Node>, kids: seq<Node>, depth: nat, i: nat, j: nat)
    returns (a: nat, b: nat)
    requires AtDepth(nodes, kids, depth) && 0 < i < j < |kids|
    ensures a < b < |PreOrder(nodes, kids, depth)|
    ensures PreOrder(nodes, kids, depth)[a] == kids[i] && PreOrder(nodes, kids, depth)[b] == kids[j]
    decreases |kids|, 0
  {
    PreOrderUnfold(nodes, kids, depth);
    var head := [kids[0]] + PreOrder(nodes, Children(nodes, kids[0]), depth + 1);
    var p2 := PreOrder(nodes, kids[1..], depth);
    assert kids[1..][i - 1] == kids[i] && kids[1..][j - 1] == kids[j];
    var c, d := KidsInOrder(nodes, kids[1..], depth, i - 1, j - 1);
    a, b := |head| + c, |head| + d;
    ConcatAt(head, p2, c);
    ConcatAt(head, p2, d);
  }

  /** Position `c` of `tail` is position `|head| + c` of `head + tail`. */
  lemma ConcatAt<T>(head: seq<T>, tail: seq<T>, c: nat)
    requires c < |tail|
    ensures |head| + c < |head + tail| && (head + tail)[|head| + c] == tail[c]
  {
  }

  /** `Children` keeps the insertion order of the nodes: where `nodes[a]` and `nodes[b]` sit among them. */
  lemma {:induction false} ChildrenOrder(nodes: seq<Node>, p: Node, a: nat, b: nat) returns (i: nat, j: nat)
    requires a < b < |nodes| && IsChild(p, nodes[a]) && IsChild(p, nodes[b])
    ensures i < j < |Children(nodes, p)|
    ensures Children(nodes, p)[i] == nodes[a] && Children(nodes, p)[j] == nodes[b]
  {
    var head := if IsChild(p, nodes[0]) then [nodes[0]] else [];
    var rest := Children(nodes[1..], p);
    assert Children(nodes, p) == head + rest;
    assert nodes[1..][b - 1] == nodes[b];
    if a == 0 {
      var c := ChildIndex(nodes[1..], p, b - 1);
      i, j := 0, 1 + c;
      assert (head + rest)[j] == rest[c];
    } else {
      var c, d := ChildrenOrder(nodes[1..], p, a - 1, b - 1);
      assert nodes[1..][a - 1] == nodes[a];
      i, j := |head| + c, |head| + d;
      assert (head + rest)[i] == rest[c] && (head + rest)[j] == rest[d];
    }
  }

  /** Where a child of `p` sits among `Children(nodes, p)`. */
  lemma {:induction false} ChildIndex(nodes: seq<Node>, p: Node, b: nat) returns (j: nat)
    requires b < |nodes| && IsChild(p, nodes[b])
    ensures j < |Children(nodes, p)| && Children(nodes, p)[j] == nodes[b]
  {
    var head := if IsChild(p, nodes[0]) then [nodes[0]] else [];
    var rest := Children(nodes[1..], p);
    assert Children(nodes, p) == head + rest;
    if b == 0 {
      j := 0;
    } else {
      var c := ChildIndex(nodes[1..], p, b - 1);
      assert nodes[1..][b - 1] == nodes[b];
      j := |head| + c;
      assert (head + rest)[j] == rest[c];
    }
  }

  /**
   * Under any node `p` (the root included), `print_hierarchy` lists a child inserted earlier
   * before one inserted later, as a Python dict iterates its keys.
   */
  lemma SiblingsInOrder(nodes: seq<Node>, p: Node, a: nat, b: nat)
    requires a < b < |nodes| && IsChild(p, nodes[a]) && IsChild(p, nodes[b])
    ensures var pre := PreOrder(nodes, Children(nodes, p), |p| + 1);
      exists x, y :: 0 <= x < y < |pre| && pre[x] == nodes[a] && pre[y] == nodes[b]
  {
    var i, j := ChildrenOrder(nodes, p, a, b);
    var x, y := KidsInOrder(nodes, Children(nodes, p), |p| + 1, i, j);
  }

  /** A node deeper than the kids' level is listed after its parent: where the parent is listed. */
  lemma {:induction false} ParentBefore(nodes: seq<Node>, kids: seq<Node>, depth: nat, i: nat) returns (j: nat)
    requires AtDepth(nodes, kids, depth)
    requires i < |PreOrder(nodes, kids, depth)| && |PreOrder(nodes, kids, depth)[i]| > depth
    ensures j < i
    ensures PreOrder(nodes, kids, depth)[j] == Parent(PreOrder(nodes, kids, depth)[i])
    decreases MaxLen(nodes) + 1 - depth, |kids|, 1
  {
    PreOrderUnfold(nodes, kids, depth);
    var p1 := PreOrder(nodes, Children(nodes, kids[0]), depth + 1);
    if i < 1 + |p1| {
      j := ParentInFirstSubtree(nodes, kids, depth, i);
    } else {
      j := ParentInLaterKids(nodes, kids, depth, i);
    }
  }

  /** A node in the first kid's subtree is listed after its parent, which is that kid or in that subtree. */
  lemma {:induction false} ParentInFirstSubtree(nodes: seq<Node>, kids: seq<Node>, depth: nat, i: nat) returns (j: nat)
    requires AtDepth(nodes, kids, depth) && kids != []
    requires AtDepth(nodes, Children(nodes, kids[0]), depth + 1)
    requires i < |PreOrder(nodes, kids, depth)| && |PreOrder(nodes, kids, depth)[i]| > depth
    requires i < 1 + |PreOrder(nodes, Children(nodes, kids[0]), depth + 1)|
    ensures j < i
    ensures PreOrder(nodes, kids, depth)[j] == Parent(PreOrder(nodes, kids, depth)[i])
    decreases MaxLen(nodes) + 1 - depth, |kids|, 0
  {
    var k := kids[0];
    PreOrderUnfold(nodes, kids, depth);
    var ch := Children(nodes, k);
    var p1, p2 := PreOrder(nodes, ch, depth + 1), PreOrder(nodes, kids[1..], depth);
    HeadAt(k, p1, p2, i);
    var n := p1[i - 1];
    if |n| > depth + 1 {
      var c := ParentBefore(nodes, ch, depth + 1, i - 1);
      j := 1 + c;
      MiddleAt(k, p1, p2, c);
    } else {
      j := 0;
      ChildOfFirst(nodes, ch, k, depth, n);
    }
  }

  /** A node in a later kid's listing is listed after its parent, which is listed there too. */
  lemma {:induction false} ParentInLaterKids(nodes: seq<Node>, kids: seq<Node>, depth: nat, i: nat) returns (j: nat)
    requires AtDepth(nodes, kids, depth) && kids != []
    requires AtDepth(nodes, Children(nodes, kids[0]), depth + 1) && AtDepth(nodes, kids[1..], depth)
    requires i < |PreOrder(nodes, kids, depth)| && |PreOrder(nodes, kids, depth)[i]| > depth
    requires 1 + |PreOrder(nodes, Children(nodes, kids[0]), depth + 1)| <= i
    ensures j < i
    ensures PreOrder(nodes, kids, depth)[j] == Parent(PreOrder(nodes, kids, depth)[i])
    decreases MaxLen(nodes) + 1 - depth, |kids|, 0
  {
    var k := kids[0];
    PreOrderUnfold(nodes, kids, depth);
    var p1, p2 := PreOrder(nodes, Children(nodes, k), depth + 1), PreOrder(nodes, kids[1..], depth);
    var m := i - 1 - |p1|;
    TailAtIndex(k, p1, p2, i);
    var c := ParentBefore(nodes, kids[1..], depth, m);
    j := 1 + |p1| + c;
    TailAt(k, p1, p2, c);
  }

  /** Position `i > 0` of `[k] + p1 + p2` within `p1`. */
  lemma HeadAt<T>(k: T, p1: seq<T>, p2: seq<T>, i: nat)
    requires i < 1 + |p1|
    ensures ([k] + p1 + p2)[i] == if i == 0 then k else p1[i - 1]
  {
  }

  /** Position `c` of `p1` in `[k] + p1 + p2`. */
  lemma MiddleAt<T>(k: T, p1: seq<T>, p2: seq<T>, c: nat)
    requires c < |p1|
    ensures ([k] + p1 + p2)[1 + c] == p1[c]
  {
  }

  /** Position `i` of `[k] + p1 + p2`, past `p1`, within `p2`. */
  lemma TailAtIndex<T>(k: T, p1: seq<T>, p2: seq<T>, i: nat)
    requires 1 + |p1| <= i < 1 + |p1| + |p2|
    ensures ([k] + p1 + p2)[i] == p2[i - 1 - |p1|]
  {
  }

  /** Position `c` of `p2` in `[k] + p1 + p2`. */
  lemma TailAt<T>(k: T, p1: seq<T>, p2: seq<T>, c: nat)
    requires c < |p2|
    ensures 1 + |p1| + c < |[k] + p1 + p2| && ([k] + p1 + p2)[1 + |p1| + c] == p2[c]
  {
  }

  /** The parent of a node: the node one segment shorter. */
  function Parent(n: Node): (r: Node)
    requires |n| >= 1
    ensures |r| == |n| - 1 && IsPrefix(r, n)
  {
    n[..|n| - 1]
  }

  /** A node listed right below `k`'s children's level has `k` as its parent. */
  lemma {:induction false} ChildOfFirst(nodes: seq<Node>, ch: seq<Node>, k: Node, depth: nat, n: Node)
    requires ch == Children(nodes, k) && AtDepth(nodes, ch, depth + 1)
    requires n in PreOrder(nodes, ch, depth + 1) && |n| <= depth + 1
    ensures Parent(n) == k
  {
    PreOrderBelow(nodes, ch, depth + 1, n);
    var c :| c in ch && IsPrefix(c, n);
    assert |c| == depth + 1 && IsChild(k, c);
    assert c == n by {
      assert n[..|c|] == c;
      assert |n| == |c|;
    }
  }

  /** In the printed order every node comes after its parent. */
  lemma ParentsFirst(nodes: seq<Node>, i: nat)
    requires i < |PreOrder(nodes, Children(nodes, []), 1)|
    requires |PreOrder(nodes, Children(nodes, []), 1)[i]| >= 2
    ensures var pre := PreOrder(nodes, Children(nodes, []), 1);
      exists j :: 0 <= j < i && pre[j] == Parent(pre[i])
  {
    var j := ParentBefore(nodes, Children(nodes, []), 1, i);
  }
}
