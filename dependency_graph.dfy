/** The dependency graph of installed containers (each name mapped to the names of
    its dependencies, in manifest order) and the depth-first search with a path
    stack that detects a cycle. */
module DependencyGraph {
  import opened Errors

  type Graph = map<string, seq<string>>

  function Elems(path: seq<string>): set<string>
  {
    set x | x in path
  }

  /** Pushing a name of the graph that is not yet on the path leaves fewer names to push. */
  lemma PushShrinks(g: Graph, path: seq<string>, cur: string)
    requires cur in g && cur !in path
    ensures |g.Keys - Elems(path + [cur])| < |g.Keys - Elems(path)|
  {
    assert g.Keys - Elems(path + [cur]) == (g.Keys - Elems(path)) - {cur};
    assert cur in g.Keys - Elems(path);
  }

  /** The search from `cur` with `path` on the stack: `Some(stack)` is the stack at the
      moment a name already on it is reached again; `None` means every walk from
      `cur` ends without doing so. */
  function Dfs(g: Graph, path: seq<string>, cur: string): Option<seq<string>>
    decreases |g.Keys - Elems(path)|, 0
  {
    if cur in path then Some(path)
    else if cur !in g then None
    else
      PushShrinks(g, path, cur);
      DfsAll(g, path + [cur], g[cur])
  }

  /** The search from each of `names` in order, stopping at the first cycle. */
  function DfsAll(g: Graph, path: seq<string>, names: seq<string>): Option<seq<string>>
    decreases |g.Keys - Elems(path)|, |names|
  {
    if |names| == 0 then None
    else
      match Dfs(g, path, names[0])
      case Some(stack) => Some(stack)
      case None => DfsAll(g, path, names[1..])
  }

  /** A sequence of names in which each one lists the next as a dependency. */
  predicate IsWalk(g: Graph, w: seq<string>)
  {
    |w| >= 1 && forall i :: 0 <= i < |w| - 1 ==> w[i] in g && w[i + 1] in g[w[i]]
  }

  /** A walk from `cur` that ends on a name already on `path` or earlier on the walk. */
  ghost predicate ClosesOn(g: Graph, path: seq<string>, cur: string, w: seq<string>)
  {
    IsWalk(g, w) && w[0] == cur && w[|w| - 1] in path + w[..|w| - 1]
  }

  /** A cycle can be reached from `cur`: some walk from it comes back to a name it
      has already visited. */
  ghost predicate ReachableCycle(g: Graph, cur: string)
  {
    exists w :: ClosesOn(g, [], cur, w)
  }

  lemma DfsAllSome(g: Graph, path: seq<string>, names: seq<string>)
    requires DfsAll(g, path, names).Some?
    ensures exists k :: 0 <= k < |names| && Dfs(g, path, names[k]) == DfsAll(g, path, names)
    decreases |names|
  {
    if Dfs(g, path, names[0]).None? {
      DfsAllSome(g, path, names[1..]);
      var k :| 0 <= k < |names[1..]| && Dfs(g, path, names[1..][k]) == DfsAll(g, path, names[1..]);
      assert names[1..][k] == names[k + 1];
    }
  }

  lemma DfsAllReaches(g: Graph, path: seq<string>, names: seq<string>, k: int)
    requires 0 <= k < |names| && Dfs(g, path, names[k]).Some?
    ensures DfsAll(g, path, names).Some?
    decreases |names|
  {
    if k > 0 && Dfs(g, path, names[0]).None? {
      assert names[1..][k - 1] == names[k];
      DfsAllReaches(g, path, names[1..], k - 1);
    }
  }

  /** A reported stack extends the path on entry, and a walk from `cur` closes on it. */
  lemma {:induction false} DfsSound(g: Graph, path: seq<string>, cur: string)
    requires Dfs(g, path, cur).Some?
    ensures var stack := Dfs(g, path, cur).value;
      |path| <= |stack| && stack[..|path|] == path
    ensures exists w :: ClosesOn(g, path, cur, w)
    decreases |g.Keys - Elems(path)|
  {
    if cur in path {
      var w := [cur];
      assert w[..0] == [];
      assert ClosesOn(g, path, cur, w);
    } else {
      PushShrinks(g, path, cur);
      var pushed := path + [cur];
      DfsAllSome(g, pushed, g[cur]);
      var k :| 0 <= k < |g[cur]| && Dfs(g, pushed, g[cur][k]) == DfsAll(g, pushed, g[cur]);
      var next := g[cur][k];
      DfsSound(g, pushed, next);
      var stack := Dfs(g, pushed, next).value;
      assert stack[..|path|] == stack[..|pushed|][..|path|];
      var v :| ClosesOn(g, pushed, next, v);
      assert v[0] == next && next in g[cur];
      ExtendWalk(g, path, cur, v);
      assert ClosesOn(g, path, cur, [cur] + v);
    }
  }

  /** A closing walk from a dependency of `cur`, with `cur` pushed, extends to a closing
      walk from `cur`. */
  lemma ExtendWalk(g: Graph, path: seq<string>, cur: string, v: seq<string>)
    requires cur in g && |v| >= 1 && v[0] in g[cur]
    requires ClosesOn(g, path + [cur], v[0], v)
    ensures ClosesOn(g, path, cur, [cur] + v)
  {
    var w := [cur] + v;
    assert w[1..] == v;
    assert IsWalk(g, w) by {
      forall i | 0 <= i < |w| - 1
        ensures w[i] in g && w[i + 1] in g[w[i]]
      {
        if i > 0 {
          assert w[i] == v[i - 1] && w[i + 1] == v[i];
        }
      }
    }
    assert w[..|w| - 1] == [cur] + v[..|v| - 1];
    assert path + w[..|w| - 1] == (path + [cur]) + v[..|v| - 1];
  }

  /** Every walk from `cur` that closes on the path makes the search report a cycle. */
  lemma {:induction false} DfsComplete(g: Graph, path: seq<string>, cur: string, w: seq<string>)
    requires ClosesOn(g, path, cur, w)
    ensures Dfs(g, path, cur).Some?
    decreases |w|
  {
    if |w| == 1 {
      assert w[..0] == [];
      assert cur in path;
    } else if cur !in path {
      assert w[0] in g && w[1] in g[w[0]];
      var k :| 0 <= k < |g[cur]| && g[cur][k] == w[1];
      var pushed := path + [cur];
      var v := w[1..];
      assert IsWalk(g, v) by {
        forall i | 0 <= i < |v| - 1
          ensures v[i] in g && v[i + 1] in g[v[i]]
        {
          assert v[i] == w[i + 1] && v[i + 1] == w[i + 2];
        }
      }
      assert w[..|w| - 1] == [cur] + v[..|v| - 1];
      assert path + w[..|w| - 1] == pushed + v[..|v| - 1];
      DfsComplete(g, pushed, w[1], v);
      DfsAllReaches(g, pushed, g[cur], k);
    }
  }

  /** From an empty stack the search reports a cycle exactly when one is reachable. */
  lemma DfsFindsExactlyReachableCycles(g: Graph, cur: string)
    ensures Dfs(g, [], cur).Some? <==> ReachableCycle(g, cur)
  {
    if Dfs(g, [], cur).Some? {
      DfsSound(g, [], cur);
    }
    if ReachableCycle(g, cur) {
      var w :| ClosesOn(g, [], cur, w);
      DfsComplete(g, [], cur, w);
    }
  }

  /** A name on the stack is reported at once with the stack unchanged; a name that is
      not in the graph and not on the stack is a leaf. */
  lemma DfsEntryCases(g: Graph, path: seq<string>, cur: string)
    ensures cur in path ==> Dfs(g, path, cur) == Some(path)
    ensures cur !in path && cur !in g ==> Dfs(g, path, cur) == None
  {
  }

  /** A name of the graph that is not on the stack is pushed and its dependencies
      searched in order. */
  lemma DfsPush(g: Graph, path: seq<string>, cur: string)
    requires cur in g && cur !in path
    ensures |g.Keys - Elems(path + [cur])| < |g.Keys - Elems(path)|
    ensures Dfs(g, path, cur) == DfsAll(g, path + [cur], g[cur])
  {
    PushShrinks(g, path, cur);
  }

  /** `A -> B, B -> A` from `A` stops with the stack `[A, B]`. */
  lemma TwoCycleExample()
    ensures Dfs(map["A" := ["B"], "B" := ["A"]], [], "A") == Some(["A", "B"])
  {
    var g := map["A" := ["B"], "B" := ["A"]];
    assert "A" !in [];
    assert [] + ["A"] == ["A"];
    assert "B" !in ["A"];
    assert ["A"] + ["B"] == ["A", "B"];
    assert "A" in ["A", "B"];
    assert Dfs(g, ["A", "B"], "A") == Some(["A", "B"]);
    assert DfsAll(g, ["A", "B"], ["A"]) == Some(["A", "B"]);
    assert Dfs(g, ["A"], "B") == Some(["A", "B"]);
    assert DfsAll(g, ["A"], ["B"]) == Some(["A", "B"]);
  }

  /** The diamond `A -> B, A -> C, B -> D, C -> D` has no cycle: D is reached twice
      but never while it is on the stack. */
  lemma DiamondExample()
    ensures Dfs(map["A" := ["B", "C"], "B" := ["D"], "C" := ["D"], "D" := []], [], "A") == None
  {
    var g := map["A" := ["B", "C"], "B" := ["D"], "C" := ["D"], "D" := []];
    assert [] + ["A"] == ["A"];
    assert ["A"] + ["B"] == ["A", "B"];
    assert ["A"] + ["C"] == ["A", "C"];
    assert ["A", "B"] + ["D"] == ["A", "B", "D"];
    assert ["A", "C"] + ["D"] == ["A", "C", "D"];
    assert Dfs(g, ["A", "B"], "D") == None by {
      assert "D" !in ["A", "B"];
      assert DfsAll(g, ["A", "B", "D"], []) == None;
    }
    assert Dfs(g, ["A", "C"], "D") == None by {
      assert "D" !in ["A", "C"];
      assert DfsAll(g, ["A", "C", "D"], []) == None;
    }
    assert Dfs(g, ["A"], "B") == None by {
      assert "B" !in ["A"];
      assert DfsAll(g, ["A", "B"], ["D"]) == None by {
        assert ["D"][1..] == [];
      }
    }
    assert Dfs(g, ["A"], "C") == None by {
      assert "C" !in ["A"];
      assert DfsAll(g, ["A", "C"], ["D"]) == None by {
        assert ["D"][1..] == [];
      }
    }
    assert DfsAll(g, ["A"], ["B", "C"]) == None by {
      assert ["B", "C"][1..] == ["C"];
      assert ["C"][1..] == [];
    }
  }
}
