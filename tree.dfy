/**
 * Traversals of the joint tree: the pre-order joint list of GetJointList and
 * the indented listing of PrintJointSubHierarchy, with what they promise about
 * the tree below a joint.
 */
module JointTree {
  import opened Wrappers
  import opened Joints

  /** `a` is `x` or lies on the parent chain of `x`. */
  predicate IsAncestor(js: seq<JointRec>, a: nat, x: nat)
    requires ArenaOk(js) && x < |js|
    decreases x
  {
    assert JointOk(js, x);
    a == x || (js[x].parent.Some? && IsAncestor(js, a, js[x].parent.value))
  }

  /** Number of parent links from `x` up to a joint without a parent. */
  function Depth(js: seq<JointRec>, x: nat): nat
    requires ArenaOk(js) && x < |js|
    decreases x
  {
    assert JointOk(js, x);
    if js[x].parent.None? then 0 else 1 + Depth(js, js[x].parent.value)
  }

  predicate Distinct(xs: seq<nat>) {
    forall a, b :: 0 <= a < b < |xs| ==> xs[a] != xs[b]
  }

  /** add_joint of GetJointList: `j`, then the subtree of each child in the order of `children`. */
  function SubtreeJoints(js: seq<JointRec>, j: nat): (r: seq<nat>)
    requires ArenaOk(js) && j < |js|
    ensures r != [] && r[0] == j
    decreases |js| - j, 1, 0
  {
    assert JointOk(js, j);
    [j] + ForestJoints(js, js[j].children, j)
  }

  /** The subtrees of the joints `cs`, all children of `p`, one after the other. */
  function ForestJoints(js: seq<JointRec>, cs: seq<nat>, p: nat): (r: seq<nat>)
    requires ArenaOk(js) && forall k :: 0 <= k < |cs| ==> p < cs[k] < |js|
    ensures |r| >= |cs|
    ensures cs != [] ==> r[0] == cs[0]
    decreases |js| - p, 0, |cs|
  {
    if cs == [] then [] else SubtreeJoints(js, cs[0]) + ForestJoints(js, cs[1..], p)
  }

  lemma {:induction false} AncestorNotAfter(js: seq<JointRec>, a: nat, x: nat)
    requires ArenaOk(js) && x < |js| && IsAncestor(js, a, x)
    ensures a <= x
    decreases x
  {
    if a != x {
      assert JointOk(js, x);
      AncestorNotAfter(js, a, js[x].parent.value);
    }
  }

  /** An ancestor of a child is the child itself or an ancestor of its parent. */
  lemma {:induction false} AncestorOfChild(js: seq<JointRec>, c: nat, p: nat, x: nat)
    requires ArenaOk(js) && x < |js| && c < |js| && js[c].parent == Some(p)
    requires IsAncestor(js, c, x)
    ensures IsAncestor(js, p, x)
    decreases x
  {
    if c != x {
      assert JointOk(js, x);
      AncestorOfChild(js, c, p, js[x].parent.value);
    }
  }

  /** The ancestors of a joint form a chain. */
  lemma {:induction false} AncestorsOrdered(js: seq<JointRec>, a: nat, b: nat, x: nat)
    requires ArenaOk(js) && x < |js| && IsAncestor(js, a, x) && IsAncestor(js, b, x)
    ensures a < |js| && b < |js|
    ensures IsAncestor(js, a, b) || IsAncestor(js, b, a)
    decreases x
  {
    AncestorNotAfter(js, a, x);
    AncestorNotAfter(js, b, x);
    if a != x && b != x {
      assert JointOk(js, x);
      AncestorsOrdered(js, a, b, js[x].parent.value);
    }
  }

  /** The child of `j` through which the parent chain of `x` passes. */
  ghost function ChildToward(js: seq<JointRec>, j: nat, x: nat): (c: nat)
    requires ArenaOk(js) && j < |js| && x < |js| && IsAncestor(js, j, x) && x != j
    ensures c in js[j].children && c < |js| && IsAncestor(js, c, x)
    decreases x
  {
    assert JointOk(js, x);
    var p := js[x].parent.value;
    if p == j then x else ChildToward(js, j, p)
  }

  /** Everything listed below `j` is a descendant of `j`; below `p`, a proper one. */
  lemma {:induction false} SubtreeSound(js: seq<JointRec>, j: nat)
    requires ArenaOk(js) && j < |js|
    ensures forall x :: x in SubtreeJoints(js, j) ==> x < |js| && IsAncestor(js, j, x)
    decreases |js| - j, 1, 0
  {
    assert JointOk(js, j);
    ForestSound(js, js[j].children, j);
  }

  lemma {:induction false} ForestSound(js: seq<JointRec>, cs: seq<nat>, p: nat)
    requires ArenaOk(js) && forall k :: 0 <= k < |cs| ==> p < cs[k] < |js| && js[cs[k]].parent == Some(p)
    ensures forall x :: x in ForestJoints(js, cs, p) ==> p < x < |js| && IsAncestor(js, p, x)
    decreases |js| - p, 0, |cs|
  {
    if cs != [] {
      SubtreeSound(js, cs[0]);
      ForestSound(js, cs[1..], p);
      forall x | x in SubtreeJoints(js, cs[0])
        ensures p < x && IsAncestor(js, p, x)
      {
        AncestorNotAfter(js, cs[0], x);
        AncestorOfChild(js, cs[0], p, x);
      }
    }
  }

  lemma {:induction false} ForestHasSubtree(js: seq<JointRec>, cs: seq<nat>, p: nat, i: nat)
    requires ArenaOk(js) && forall k :: 0 <= k < |cs| ==> p < cs[k] < |js|
    requires i < |cs|
    ensures forall x :: x in SubtreeJoints(js, cs[i]) ==> x in ForestJoints(js, cs, p)
    decreases |cs|
  {
    if i > 0 {
      ForestHasSubtree(js, cs[1..], p, i - 1);
    }
  }

  /** Every descendant of `j` is listed below `j`. */
  lemma {:induction false} SubtreeComplete(js: seq<JointRec>, j: nat, x: nat)
    requires ArenaOk(js) && j < |js| && x < |js| && IsAncestor(js, j, x)
    ensures x in SubtreeJoints(js, j)
    decreases |js| - j
  {
    if x != j {
      var c := ChildToward(js, j, x);
      assert JointOk(js, j);
      var i :| 0 <= i < |js[j].children| && js[j].children[i] == c;
      SubtreeComplete(js, c, x);
      ForestHasSubtree(js, js[j].children, j, i);
    }
  }

  /** The child of one of `cs` whose subtree lists `x`. */
  ghost function Owner(js: seq<JointRec>, cs: seq<nat>, p: nat, x: nat): (c: nat)
    requires ArenaOk(js) && forall k :: 0 <= k < |cs| ==> p < cs[k] < |js|
    requires x in ForestJoints(js, cs, p)
    ensures c in cs && c < |js| && x in SubtreeJoints(js, c)
    decreases |cs|
  {
    if x in SubtreeJoints(js, cs[0]) then cs[0] else Owner(js, cs[1..], p, x)
  }

  lemma DistinctConcat(a: seq<nat>, b: seq<nat>)
    requires Distinct(a) && Distinct(b)
    requires forall x :: x in a ==> x !in b
    ensures Distinct(a + b)
  {
    forall i, k | 0 <= i < k < |a + b|
      ensures (a + b)[i] != (a + b)[k]
    {
      if i < |a| && k >= |a| {
        assert (a + b)[i] in a && (a + b)[k] in b;
      }
    }
  }

  /** No joint is listed twice below `j`. */
  lemma {:induction false} SubtreeDistinct(js: seq<JointRec>, j: nat)
    requires ArenaOk(js) && j < |js|
    ensures Distinct(SubtreeJoints(js, j))
    decreases |js| - j, 1, 0
  {
    assert JointOk(js, j);
    ForestDistinct(js, js[j].children, j);
    ForestSound(js, js[j].children, j);
    DistinctConcat([j], ForestJoints(js, js[j].children, j));
  }

  lemma {:induction false} ForestDistinct(js: seq<JointRec>, cs: seq<nat>, p: nat)
    requires ArenaOk(js)
    requires forall k :: 0 <= k < |cs| ==> p < cs[k] < |js| && js[cs[k]].parent == Some(p)
    requires forall k, l :: 0 <= k < l < |cs| ==> cs[k] < cs[l]
    ensures Distinct(ForestJoints(js, cs, p))
    decreases |js| - p, 0, |cs|
  {
    if cs != [] {
      SubtreeDistinct(js, cs[0]);
      ForestDistinct(js, cs[1..], p);
      SubtreeSound(js, cs[0]);
      forall x | x in SubtreeJoints(js, cs[0])
        ensures x !in ForestJoints(js, cs[1..], p)
      {
        if x in ForestJoints(js, cs[1..], p) {
          var o := Owner(js, cs[1..], p, x);
          SubtreeSound(js, o);
          AncestorsOrdered(js, cs[0], o, x);
          if IsAncestor(js, cs[0], o) {
            AncestorOfChild(js, cs[0], p, js[o].parent.value);
            AncestorNotAfter(js, cs[0], p);
          } else {
            AncestorNotAfter(js, o, js[cs[0]].parent.value);
          }
          assert false;
        }
      }
      DistinctConcat(SubtreeJoints(js, cs[0]), ForestJoints(js, cs[1..], p));
    }
  }

  /**
   * GetJointList from joint `r`: `r` first, then every descendant of `r`, each
   * exactly once.
   */
  lemma JointListIsTree(js: seq<JointRec>, r: nat)
    requires ArenaOk(js) && r < |js|
    ensures SubtreeJoints(js, r)[0] == r
    ensures forall x: nat :: x in SubtreeJoints(js, r) <==> x < |js| && IsAncestor(js, r, x)
    ensures Distinct(SubtreeJoints(js, r))
  {
    SubtreeSound(js, r);
    SubtreeDistinct(js, r);
    forall x: nat | x < |js| && IsAncestor(js, r, x)
      ensures x in SubtreeJoints(js, r)
    {
      SubtreeComplete(js, r, x);
    }
  }

  /** Two spaces per level of depth. */
  function Indent(depth: nat): (s: string)
    ensures |s| == 2 * depth && forall i :: 0 <= i < |s| ==> s[i] == ' '
  {
    if depth == 0 then "" else "  " + Indent(depth - 1)
  }

  /** PrintJointSubHierarchy(joint, depth): one line per joint, in the same order as the joint list. */
  function PrintSubtree(js: seq<JointRec>, j: nat, depth: nat): (r: seq<string>)
    requires ArenaOk(js) && j < |js|
    ensures |r| == |SubtreeJoints(js, j)|
    ensures r[0] == Indent(depth) + js[j].name
    decreases |js| - j, 1, 0
  {
    assert JointOk(js, j);
    [Indent(depth) + js[j].name] + PrintForest(js, js[j].children, j, depth + 1)
  }

  function PrintForest(js: seq<JointRec>, cs: seq<nat>, p: nat, depth: nat): (r: seq<string>)
    requires ArenaOk(js) && forall k :: 0 <= k < |cs| ==> p < cs[k] < |js|
    ensures |r| == |ForestJoints(js, cs, p)|
    decreases |js| - p, 0, |cs|
  {
    if cs == [] then [] else PrintSubtree(js, cs[0], depth) + PrintForest(js, cs[1..], p, depth)
  }

  /** The line of joint `x`: its name behind two spaces per level of its depth in the tree. */
  function Line(js: seq<JointRec>, x: nat): string
    requires ArenaOk(js) && x < |js|
  {
    Indent(Depth(js, x)) + js[x].name
  }

  /** The line of every joint of `xs`, in order. */
  function Lines(js: seq<JointRec>, xs: seq<nat>): seq<string>
    requires ArenaOk(js) && forall x :: x in xs ==> x < |js|
  {
    if xs == [] then []
    else
      assert xs[0] in xs && forall x :: x in xs[1..] ==> x in xs;
      [Line(js, xs[0])] + Lines(js, xs[1..])
  }

  /** Line k of Lines(js, xs) is the line of xs[k]. */
  lemma {:induction false} LinesAt(js: seq<JointRec>, xs: seq<nat>)
    requires ArenaOk(js) && forall x :: x in xs ==> x < |js|
    ensures |Lines(js, xs)| == |xs|
    ensures forall k :: 0 <= k < |xs| ==> xs[k] < |js| && Lines(js, xs)[k] == Line(js, xs[k])
  {
    if xs != [] {
      assert forall x :: x in xs[1..] ==> x in xs;
      LinesAt(js, xs[1..]);
      assert xs[0] in xs;
      forall k | 0 < k < |xs|
        ensures xs[k] < |js| && Lines(js, xs)[k] == Line(js, xs[k])
      {
        assert xs[k] == xs[1..][k - 1];
      }
    }
  }

  lemma {:induction false} LinesConcat(js: seq<JointRec>, a: seq<nat>, b: seq<nat>)
    requires ArenaOk(js) && (forall x :: x in a ==> x < |js|) && (forall x :: x in b ==> x < |js|)
    ensures forall x :: x in a + b ==> x < |js|
    ensures Lines(js, a + b) == Lines(js, a) + Lines(js, b)
  {
    if a != [] {
      assert forall x :: x in a[1..] ==> x in a;
      LinesConcat(js, a[1..], b);
      assert a[0] in a && (a + b)[0] == a[0] && (a + b)[1..] == a[1..] + b;
      calc {
        Lines(js, a + b);
        [Line(js, a[0])] + Lines(js, a[1..] + b);
        [Line(js, a[0])] + (Lines(js, a[1..]) + Lines(js, b));
        Lines(js, a) + Lines(js, b);
      }
    } else {
      assert a + b == b;
    }
  }

  /** Printing below `j` at the depth of `j` gives the line of every joint of the joint list, in order. */
  lemma {:induction false} PrintSubtreeLines(js: seq<JointRec>, j: nat)
    requires ArenaOk(js) && j < |js|
    ensures forall x :: x in SubtreeJoints(js, j) ==> x < |js|
    ensures PrintSubtree(js, j, Depth(js, j)) == Lines(js, SubtreeJoints(js, j))
    decreases |js| - j, 1, 0
  {
    assert JointOk(js, j);
    var cs := js[j].children;
    var below := ForestJoints(js, cs, j);
    PrintForestLines(js, cs, j);
    assert SubtreeJoints(js, j) == [j] + below;
    LinesCons(js, j, below);
  }

  /** The lines of `x` followed by `xs`. */
  lemma LinesCons(js: seq<JointRec>, x: nat, xs: seq<nat>)
    requires ArenaOk(js) && x < |js| && forall y :: y in xs ==> y < |js|
    ensures forall y :: y in [x] + xs ==> y < |js|
    ensures Lines(js, [x] + xs) == [Indent(Depth(js, x)) + js[x].name] + Lines(js, xs)
  {
    assert ([x] + xs)[1..] == xs;
  }

  lemma {:induction false} PrintForestLines(js: seq<JointRec>, cs: seq<nat>, p: nat)
    requires ArenaOk(js) && p < |js|
    requires forall k :: 0 <= k < |cs| ==> p < cs[k] < |js| && js[cs[k]].parent == Some(p)
    ensures forall x :: x in ForestJoints(js, cs, p) ==> x < |js|
    ensures PrintForest(js, cs, p, Depth(js, p) + 1) == Lines(js, ForestJoints(js, cs, p))
    decreases |js| - p, 0, |cs|
  {
    ForestSound(js, cs, p);
    if cs != [] {
      assert Depth(js, cs[0]) == Depth(js, p) + 1;
      PrintSubtreeLines(js, cs[0]);
      PrintForestLines(js, cs[1..], p);
      SubtreeSound(js, cs[0]);
      LinesConcat(js, SubtreeJoints(js, cs[0]), ForestJoints(js, cs[1..], p));
    }
  }
}
