/**
 * Joints. The tree of shared_ptr-linked Joint objects is held in an arena:
 * a joint is named by its index, its parent link is an index and its children
 * are a list of indices. Joints are only ever appended, so an index stays valid.
 */
module Joints {
  import opened Wrappers
  import opened Numbers

  /**
   * The fields of one Joint. `offset` and `endSite` are None until written
   * (Eigen leaves a default-constructed vector uninitialised). `channelIndices`
   * is associated_channels_indices of the newer Joint.
   */
  datatype JointRec = JointRec(
    name: string,
    parent: Option<nat>,
    offset: Option<Vec3>,
    hasEndSite: bool,
    endSite: Option<Vec3>,
    children: seq<nat>,
    channelIndices: seq<nat>)

  /** The joint Joint(name, parent) constructs. */
  function NewJointRec(name: string, parent: Option<nat>): (r: JointRec)
    ensures r.name == name && r.parent == parent
    ensures r.children == [] && r.channelIndices == [] && !r.hasEndSite
  {
    JointRec(name, parent, None, false, None, [], [])
  }

  /**
   * Joint `j` is linked consistently: its parent was created before it and lists
   * it as a child; its children were created after it, in increasing order,
   * and each has `j` as its parent.
   */
  predicate JointOk(js: seq<JointRec>, j: nat)
    requires j < |js|
  {
    (js[j].parent.Some? ==> js[j].parent.value < j && j in js[js[j].parent.value].children) &&
    (forall k :: 0 <= k < |js[j].children| ==>
       j < js[j].children[k] < |js| && js[js[j].children[k]].parent == Some(j)) &&
    (forall k, l :: 0 <= k < l < |js[j].children| ==> js[j].children[k] < js[j].children[l])
  }

  /** Every joint of the arena is linked consistently: the arena is a forest. */
  predicate ArenaOk(js: seq<JointRec>) {
    forall j :: 0 <= j < |js| ==> JointOk(js, j)
  }

  /** The parent and child links of `a` and `b` agree; other fields may differ. */
  predicate SameShape(a: seq<JointRec>, b: seq<JointRec>) {
    |a| == |b| &&
    forall j :: 0 <= j < |a| ==> a[j].parent == b[j].parent && a[j].children == b[j].children
  }

  /** Joints keep their names and parents, and none disappears. */
  predicate Preserves(before: seq<JointRec>, after: seq<JointRec>) {
    |before| <= |after| &&
    forall j :: 0 <= j < |before| ==> after[j].name == before[j].name && after[j].parent == before[j].parent
  }

  /** Writing fields other than the links keeps the arena a forest. */
  lemma SameShapeKeepsArenaOk(a: seq<JointRec>, b: seq<JointRec>)
    requires ArenaOk(a) && SameShape(a, b)
    ensures ArenaOk(b)
  {
    forall j | 0 <= j < |b|
      ensures JointOk(b, j)
    {
      assert JointOk(a, j);
      if b[j].parent.Some? {
        assert b[b[j].parent.value].children == a[a[j].parent.value].children;
      }
      forall k | 0 <= k < |b[j].children|
        ensures j < b[j].children[k] < |b| && b[b[j].children[k]].parent == Some(j)
      {
        assert b[j].children[k] == a[j].children[k];
      }
    }
  }

  /** A new joint without a parent, appended to a forest, leaves it a forest: it is a new tree. */
  lemma NewRootKeepsArenaOk(js: seq<JointRec>, name: string)
    requires ArenaOk(js)
    ensures ArenaOk(js + [NewJointRec(name, None)])
  {
    var js' := js + [NewJointRec(name, None)];
    forall j | 0 <= j < |js'|
      ensures JointOk(js', j)
    {
      if j < |js| {
        assert JointOk(js, j);
      }
    }
  }

  /**
   * A new joint under `p`, appended to a forest and added as the last child
   * of `p`, leaves it a forest.
   */
  lemma NewChildKeepsArenaOk(js: seq<JointRec>, name: string, p: nat)
    requires ArenaOk(js) && p < |js|
    ensures var id := |js|; var grown := js + [NewJointRec(name, Some(p))];
      ArenaOk(grown[p := grown[p].(children := grown[p].children + [id])])
  {
    var id := |js|;
    var grown := js + [NewJointRec(name, Some(p))];
    var js' := grown[p := grown[p].(children := grown[p].children + [id])];
    forall j | 0 <= j < |js'|
      ensures JointOk(js', j)
    {
      if j < id {
        assert JointOk(js, j);
        if js[j].parent.Some? {
          assert js[js[j].parent.value].children <= js'[js'[j].parent.value].children;
        }
        if j == p {
          forall k | 0 <= k < |js'[j].children| - 1
            ensures js'[j].children[k] < id
          {
            assert js'[j].children[k] == js[j].children[k];
          }
        }
      } else {
        assert js'[j].parent == Some(p) && js'[p].children[|js'[p].children| - 1] == j;
      }
    }
  }

  /**
   * The store of all joints created so far. Its methods are the mutators of
   * Joint, addressed by index.
   */
  class Skeleton {
    var joints: seq<JointRec>

    constructor ()
      ensures joints == []
    {
      joints := [];
    }

    /** Joint(name, parent): a joint with that name and parent, no end site, no children. */
    method NewJoint(name: string, parent: Option<nat>) returns (id: nat)
      modifies this
      ensures id == |old(joints)| && |joints| == id + 1 && joints[..id] == old(joints)
      ensures joints[id].name == name && joints[id].parent == parent
      ensures !joints[id].hasEndSite && joints[id].children == [] && joints[id].channelIndices == []
      ensures joints[id].offset.None? && joints[id].endSite.None?
      ensures Preserves(old(joints), joints)
    {
      id := |joints|;
      joints := joints + [NewJointRec(name, parent)];
    }

    /** Joint::AddChild: `child` goes at the end of the children of `j`. */
    method AddChild(j: nat, child: nat)
      requires j < |joints|
      modifies this
      ensures joints == old(joints)[j := old(joints)[j].(children := old(joints)[j].children + [child])]
      ensures Preserves(old(joints), joints)
    {
      joints := joints[j := joints[j].(children := joints[j].children + [child])];
    }

    /** Joint::AssociateChannel: `index` goes at the end of the channel indices of `j`. */
    method AssociateChannel(j: nat, index: nat)
      requires j < |joints|
      modifies this
      ensures joints == old(joints)[j := old(joints)[j].(channelIndices := old(joints)[j].channelIndices + [index])]
      ensures Preserves(old(joints), joints) && SameShape(old(joints), joints)
    {
      joints := joints[j := joints[j].(channelIndices := joints[j].channelIndices + [index])];
    }

    /** Assignment through Joint::offset(). */
    method SetOffset(j: nat, v: Vec3)
      requires j < |joints|
      modifies this
      ensures joints == old(joints)[j := old(joints)[j].(offset := Some(v))]
      ensures Preserves(old(joints), joints) && SameShape(old(joints), joints)
    {
      joints := joints[j := joints[j].(offset := Some(v))];
    }

    /** Assignment through Joint::has_end_site(). */
    method SetHasEndSite(j: nat, b: bool)
      requires j < |joints|
      modifies this
      ensures joints == old(joints)[j := old(joints)[j].(hasEndSite := b)]
      ensures Preserves(old(joints), joints) && SameShape(old(joints), joints)
    {
      joints := joints[j := joints[j].(hasEndSite := b)];
    }

    /** Assignment through Joint::end_site(). */
    method SetEndSite(j: nat, v: Vec3)
      requires j < |joints|
      modifies this
      ensures joints == old(joints)[j := old(joints)[j].(endSite := Some(v))]
      ensures Preserves(old(joints), joints) && SameShape(old(joints), joints)
    {
      joints := joints[j := joints[j].(endSite := Some(v))];
    }
  }
}
