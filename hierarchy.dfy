/**
 * The HIERARCHY phase of ReadBvhFile as a function of the input lines: each
 * line is dispatched on its first token and updates the joints, the root, the
 * stack of open joints and the channel list.
 */
module Hierarchy {
  import opened Wrappers
  import opened ParseErrors
  import opened Numbers
  import opened Tokenizer
  import opened Channels
  import opened Joints
  import opened JointTree

  /** The state of the hierarchy reader. */
  datatype Hier = Hier(joints: seq<JointRec>, root: Option<nat>, stack: seq<nat>, channels: seq<Channel>)

  /** What a line leads to: more hierarchy lines from `next`, or the motion section from `next`. */
  datatype Step = Continue(h: Hier, next: nat) | EnterMotion(h: Hier, next: nat)

  /** A line whose first token is MOTION. */
  predicate IsMotionLine(line: string) {
    var t := Split(line);
    t != [] && t[0] == "MOTION"
  }

  /** Nothing read yet: no joints, no root, empty stack, no channels. */
  function Initial(): Hier {
    Hier([], None, [], [])
  }

  /**
   * The stack is a path down the tree: its bottom is the root and every entry
   * is a child of the entry below it.
   */
  predicate StackIsPath(js: seq<JointRec>, root: Option<nat>, stack: seq<nat>) {
    (forall k :: 0 <= k < |stack| ==> stack[k] < |js|) &&
    (stack != [] ==> root == Some(stack[0])) &&
    (forall k :: 0 < k < |stack| ==> js[stack[k]].parent == Some(stack[k - 1]))
  }

  /** The invariant of the reader state. */
  predicate HierOk(h: Hier) {
    ArenaOk(h.joints) &&
    (h.root.Some? ==> h.root.value < |h.joints| && h.joints[h.root.value].parent.None?) &&
    StackIsPath(h.joints, h.root, h.stack) &&
    (forall k :: 0 <= k < |h.channels| ==> h.channels[k].targetJoint < |h.joints|)
  }

  /** stack.back(): the innermost open joint. */
  function Top(h: Hier): nat
    requires h.stack != []
  {
    h.stack[|h.stack| - 1]
  }

  /**
   * A new joint named `name` whose parent is the stack top; it is appended to
   * that parent's children, or becomes the root when the stack is empty; then
   * it is pushed.
   */
  function OpenJoint(h: Hier, name: string): (r: Hier)
    requires HierOk(h)
    ensures |r.joints| == |h.joints| + 1 && r.stack == h.stack + [|h.joints|]
  {
    var id := |h.joints|;
    if h.stack == [] then
      Hier(h.joints + [NewJointRec(name, None)], Some(id), [id], h.channels)
    else
      var p := Top(h);
      var js := h.joints + [NewJointRec(name, Some(p))];
      Hier(js[p := js[p].(children := js[p].children + [id])], h.root, h.stack + [id], h.channels)
  }

  lemma OpenJointKeepsOk(h: Hier, name: string)
    requires HierOk(h)
    ensures HierOk(OpenJoint(h, name))
  {
    var h' := OpenJoint(h, name);
    if h.stack == [] {
      NewRootKeepsArenaOk(h.joints, name);
    } else {
      var p := Top(h);
      NewChildKeepsArenaOk(h.joints, name, p);
      if h.root.Some? {
        assert h'.joints[h.root.value].parent == h.joints[h.root.value].parent;
      }
      forall k | 0 < k < |h'.stack|
        ensures h'.joints[h'.stack[k]].parent == Some(h'.stack[k - 1])
      {
        if k < |h.stack| {
          assert h'.joints[h.stack[k]].parent == h.joints[h.stack[k]].parent;
        }
      }
    }
  }

  /** A ROOT or JOINT line (two tokens), then a line that is exactly "{". */
  function JointLine(h: Hier, tokens: seq<string>, lines: seq<string>, next: nat): (r: Result<Step, ParseError>)
    requires HierOk(h) && next <= |lines|
    ensures r.Success? ==> r.value == Continue(r.value.h, next + 1) && HierOk(r.value.h) && next < |lines|
    ensures r.Success? ==> Split(lines[next]) == ["{"]
  {
    if |tokens| != 2 then Failure(JointNameMissing)
    else
      var h' := OpenJoint(h, tokens[1]);
      OpenJointKeepsOk(h, tokens[1]);
      var open :- TokenizeAt(lines, next);
      if |open| != 1 || open[0] != "{" then Failure(OpenBraceExpected)
      else Success(Continue(h', next + 1))
  }

  /** An OFFSET line: four tokens, written to the offset of the stack top. */
  function OffsetLine(h: Hier, tokens: seq<string>): (r: Result<Hier, ParseError>)
    requires HierOk(h)
    ensures r.Success? ==> HierOk(r.value)
  {
    if |tokens| != 4 then Failure(OffsetMalformed)
    else if h.stack == [] then Failure(NoOpenJoint)
    else
      var v :- ReadOffset(tokens);
      var j := Top(h);
      var js := h.joints[j := h.joints[j].(offset := Some(v))];
      SameShapeKeepsArenaOk(h.joints, js);
      Success(h.(joints := js))
  }

  /** One channel per literal, in order, all targeting `target`; the first unknown literal is an error. */
  function ChannelsFor(literals: seq<string>, target: nat): (r: Result<seq<Channel>, ParseError>)
    ensures r.Success? ==> |r.value| == |literals|
    ensures r.Failure? ==> r.error.UnknownChannelType?
    decreases |literals|
  {
    if literals == [] then Success([])
    else
      var before :- ChannelsFor(literals[..|literals| - 1], target);
      var last := literals[|literals| - 1];
      match ParseChannelType(last)
      case None => Failure(UnknownChannelType(last))
      case Some(t) => Success(before + [Channel(t, target)])
  }

  /** The channels read from a list of literals: one per literal, in order, of the type it names, targeting `target`. */
  lemma {:induction false} ChannelsForShape(literals: seq<string>, target: nat)
    ensures ChannelsFor(literals, target).Success? ==>
      var cs := ChannelsFor(literals, target).value;
      |cs| == |literals| &&
      forall k :: 0 <= k < |cs| ==> cs[k].targetJoint == target && TypeLiteral(cs[k].channelType) == literals[k]
    decreases |literals|
  {
    if literals != [] && ChannelsFor(literals, target).Success? {
      var init := literals[..|literals| - 1];
      var last := literals[|literals| - 1];
      ChannelsForShape(init, target);
      assert ChannelsFor(init, target).Success? && ParseChannelType(last).Some?;
      var before := ChannelsFor(init, target).value;
      var t := ParseChannelType(last).value;
      assert TypeLiteral(t) == last;
      var cs := before + [Channel(t, target)];
      assert ChannelsFor(literals, target) == Success(cs);
      forall k | 0 <= k < |cs|
        ensures cs[k].targetJoint == target && TypeLiteral(cs[k].channelType) == literals[k]
      {
        if k < |init| {
          assert cs[k] == before[k] && init[k] == literals[k];
        } else {
          assert cs[k] == Channel(t, target);
        }
      }
    }
  }

  /** The literals are accepted exactly when every one of them names a channel type. */
  lemma {:induction false} ChannelsForAccepts(literals: seq<string>, target: nat)
    ensures ChannelsFor(literals, target).Success? <==>
      forall k :: 0 <= k < |literals| ==> ParseChannelType(literals[k]).Some?
    decreases |literals|
  {
    if literals != [] {
      var n := |literals| - 1;
      var init := literals[..n];
      ChannelsForAccepts(init, target);
      var lastOk := ParseChannelType(literals[n]).Some?;
      assert ChannelsFor(literals, target).Success? <==> ChannelsFor(init, target).Success? && lastOk;
      if forall k :: 0 <= k < |literals| ==> ParseChannelType(literals[k]).Some? {
        forall k | 0 <= k < |init|
          ensures ParseChannelType(init[k]).Some?
        {
          assert init[k] == literals[k];
        }
      }
      if ChannelsFor(literals, target).Success? {
        forall k | 0 <= k < |literals|
          ensures ParseChannelType(literals[k]).Some?
        {
          if k < n {
            assert init[k] == literals[k];
          }
        }
      }
    }
  }

  /** A rejected list is rejected for one of its literals, which names no channel type. */
  lemma {:induction false} ChannelsForError(literals: seq<string>, target: nat)
    ensures ChannelsFor(literals, target).Failure? ==>
      var e := ChannelsFor(literals, target).error;
      e.UnknownChannelType? && e.literal in literals && ParseChannelType(e.literal).None?
    decreases |literals|
  {
    if literals != [] && ChannelsFor(literals, target).Failure? {
      var init := literals[..|literals| - 1];
      ChannelsForError(init, target);
      assert literals == init + [literals[|literals| - 1]];
    }
  }

  /** Once a prefix of the literals fails, the whole list fails the same way: literals are read in order. */
  lemma {:induction false} ChannelsForPrefix(literals: seq<string>, i: nat, target: nat)
    requires i <= |literals|
    ensures ChannelsFor(literals[..i], target).Failure? ==>
      ChannelsFor(literals, target) == ChannelsFor(literals[..i], target)
    decreases |literals| - i
  {
    if i < |literals| {
      ChannelsForPrefix(literals, i + 1, target);
      assert literals[..i + 1][..i] == literals[..i];
    } else {
      assert literals[..i] == literals;
    }
  }

  /** A CHANNELS line: a count n and exactly n literals, appended as channels of the stack top. */
  function ChannelsLine(h: Hier, tokens: seq<string>): (r: Result<Hier, ParseError>)
    requires HierOk(h)
    ensures r.Success? ==> HierOk(r.value)
  {
    if |tokens| < 2 then Failure(ChannelCountMissing)
    else match ParseInt(tokens[1])
      case None => Failure(NumberFormat(tokens[1]))
      case Some(n) =>
        if |tokens| != n + 2 then Failure(ChannelCountMismatch)
        else if n > 0 && h.stack == [] then Failure(NoOpenJoint)
        else
          var target := if h.stack == [] then 0 else Top(h);
          var added :- ChannelsFor(tokens[2..], target);
          ChannelsForShape(tokens[2..], target);
          Success(h.(channels := h.channels + added))
  }

  /** "End Site", then exactly "{", an OFFSET line and exactly "}": the end site of the stack top. */
  function EndSiteLines(h: Hier, tokens: seq<string>, lines: seq<string>, next: nat): (r: Result<Step, ParseError>)
    requires HierOk(h) && next <= |lines|
    ensures r.Success? ==> r.value == Continue(r.value.h, next + 3) && HierOk(r.value.h) && next + 3 <= |lines|
    ensures r.Success? ==> Split(lines[next]) == ["{"] && Split(lines[next + 2]) == ["}"]
    ensures r.Success? ==> ReadOffset(Split(lines[next + 1])).Success?
  {
    if |tokens| != 2 || tokens[1] != "Site" then Failure(EndSiteMalformed)
    else if h.stack == [] then Failure(NoOpenJoint)
    else
      var j := Top(h);
      var marked := h.joints[j := h.joints[j].(hasEndSite := true)];
      var open :- TokenizeAt(lines, next);
      if |open| != 1 || open[0] != "{" then Failure(OpenBraceExpected)
      else
        var offsetTokens :- TokenizeAt(lines, next + 1);
        var v :- ReadOffset(offsetTokens);
        var close :- TokenizeAt(lines, next + 2);
        if |close| != 1 || close[0] != "}" then Failure(CloseBraceExpected)
        else
          var js := marked[j := marked[j].(endSite := Some(v))];
          SameShapeKeepsArenaOk(h.joints, js);
          Success(Continue(h.(joints := js), next + 3))
  }

  /** A "}" line closes the stack top. */
  function CloseLine(h: Hier): (r: Result<Hier, ParseError>)
    requires HierOk(h)
    ensures r.Success? ==> HierOk(r.value)
  {
    if h.stack == [] then Failure(UnbalancedBraces)
    else Success(h.(stack := h.stack[..|h.stack| - 1]))
  }

  /**
   * One pass of the hierarchy loop on a line with tokens `tokens`; `next` is
   * the line after it. Blank lines, HIERARCHY and unknown first tokens are skipped.
   */
  function HierarchyLine(h: Hier, tokens: seq<string>, lines: seq<string>, next: nat): (r: Result<Step, ParseError>)
    requires HierOk(h) && next <= |lines|
    ensures r.Success? ==> HierOk(r.value.h) && next <= r.value.next <= |lines|
    ensures r.Success? ==> (r.value.EnterMotion? <==> tokens != [] && tokens[0] == "MOTION")
    ensures r.Success? && r.value.EnterMotion? ==> r.value.next == next
    ensures r.Success? ==> forall k :: next <= k < r.value.next ==> !IsMotionLine(lines[k])
  {
    if tokens == [] then Success(Continue(h, next))
    else if tokens[0] == "HIERARCHY" then Success(Continue(h, next))
    else if tokens[0] == "ROOT" || tokens[0] == "JOINT" then JointLine(h, tokens, lines, next)
    else if tokens[0] == "OFFSET" then
      var h' :- OffsetLine(h, tokens);
      Success(Continue(h', next))
    else if tokens[0] == "CHANNELS" then
      var h' :- ChannelsLine(h, tokens);
      Success(Continue(h', next))
    else if tokens[0] == "End" then EndSiteLines(h, tokens, lines, next)
    else if tokens[0] == "}" then
      var h' :- CloseLine(h);
      Success(Continue(h', next))
    else if tokens[0] == "MOTION" then Success(EnterMotion(h, next))
    else Success(Continue(h, next))
  }

  /**
   * The hierarchy loop from line `pos`: the state and the line after MOTION,
   * or the first error; running out of lines before MOTION is an error.
   */
  function HierarchyFrom(h: Hier, lines: seq<string>, pos: nat): (r: Result<(Hier, nat), ParseError>)
    requires HierOk(h) && pos <= |lines|
    ensures r.Success? ==> HierOk(r.value.0) && pos < r.value.1 <= |lines|
    ensures r.Success? ==> IsMotionLine(lines[r.value.1 - 1])
    decreases |lines| - pos
  {
    if pos == |lines| then Failure(MotionMissing)
    else
      var step := HierarchyLine(h, Split(lines[pos]), lines, pos + 1);
      if step.Failure? then Failure(step.error)
      else if step.value.EnterMotion? then Success((step.value.h, step.value.next))
      else HierarchyFrom(step.value.h, lines, step.value.next)
  }

  /** One turn of the hierarchy loop: the line at `pos` decides how the rest is read. */
  lemma HierarchyFromStep(h: Hier, lines: seq<string>, pos: nat)
    requires HierOk(h) && pos < |lines|
    ensures var step := HierarchyLine(h, Split(lines[pos]), lines, pos + 1);
      (step.Failure? ==> HierarchyFrom(h, lines, pos) == Failure(step.error)) &&
      (step.Success? && step.value.Continue? ==>
         HierarchyFrom(h, lines, pos) == HierarchyFrom(step.value.h, lines, step.value.next)) &&
      (step.Success? && step.value.EnterMotion? ==>
         HierarchyFrom(h, lines, pos) == Success((step.value.h, step.value.next)))
  {
  }

  /** The hierarchy phase stops at the first MOTION line: no line before it is a MOTION line. */
  lemma {:induction false} HierarchyFromFirstMotion(h: Hier, lines: seq<string>, pos: nat)
    requires HierOk(h) && pos <= |lines| && HierarchyFrom(h, lines, pos).Success?
    ensures forall k :: pos <= k < HierarchyFrom(h, lines, pos).value.1 - 1 ==> !IsMotionLine(lines[k])
    decreases |lines| - pos
  {
    var step := HierarchyLine(h, Split(lines[pos]), lines, pos + 1);
    HierarchyFromStep(h, lines, pos);
    if step.value.Continue? {
      HierarchyFromFirstMotion(step.value.h, lines, step.value.next);
      assert !IsMotionLine(lines[pos]);
    }
  }

  /**
   * A loop turn that does what HierarchyLine says on the line at `pos`, ending
   * in state `h'` before line `next`, leaves the rest of the loop to HierarchyFrom.
   */
  lemma HierarchyTurn(h: Hier, lines: seq<string>, pos: nat, outcome: Outcome<ParseError>, motion: bool, h': Hier, next: nat)
    requires HierOk(h) && pos < |lines|
    requires var step := HierarchyLine(h, Split(lines[pos]), lines, pos + 1);
      (outcome.Fail? ==> step == Failure(outcome.error)) &&
      (outcome.Pass? ==>
         step.Success? && step.value.h == h' && step.value.next == next && (step.value.EnterMotion? <==> motion))
    ensures outcome.Pass? ==> HierOk(h') && pos < next <= |lines|
    ensures var spec := HierarchyFrom(h, lines, pos);
      (outcome.Fail? ==> spec == Failure(outcome.error)) &&
      (outcome.Pass? && motion ==> spec == Success((h', next))) &&
      (outcome.Pass? && !motion ==> spec == HierarchyFrom(h', lines, next))
  {
    HierarchyFromStep(h, lines, pos);
  }

  /** Every open joint lies under the root: the stack spells a path down the tree. */
  lemma {:induction false} StackUnderRoot(h: Hier, k: nat)
    requires HierOk(h) && k < |h.stack|
    ensures h.root.Some? && IsAncestor(h.joints, h.root.value, h.stack[k])
    decreases k
  {
    if k > 0 {
      StackUnderRoot(h, k - 1);
      assert h.joints[h.stack[k]].parent == Some(h.stack[k - 1]);
    }
  }

  /**
   * ROOT/JOINT creates one joint at the end of the arena, named as given and
   * with nothing else set; under an open joint it becomes that joint's last
   * child, otherwise it becomes the root (replacing any earlier root). It is
   * pushed, and no existing joint loses its name or parent.
   */
  lemma OpenJointEffect(h: Hier, name: string)
    requires HierOk(h)
    ensures var h' := OpenJoint(h, name); var id := |h.joints|;
      |h'.joints| == id + 1 && h'.joints[id] == NewJointRec(name, h'.joints[id].parent) &&
      h'.stack == h.stack + [id] && h'.channels == h.channels &&
      Preserves(h.joints, h'.joints) &&
      (h.stack == [] ==> h'.root == Some(id) && h'.joints[id].parent.None?) &&
      (h.stack != [] ==>
         h'.root == h.root && h'.joints[id].parent == Some(Top(h)) &&
         h'.joints[Top(h)].children == h.joints[Top(h)].children + [id])
    ensures var h' := OpenJoint(h, name);
      HierOk(h') && h'.root.Some? && IsAncestor(h'.joints, h'.root.value, |h.joints|)
  {
    OpenJointKeepsOk(h, name);
    var h' := OpenJoint(h, name);
    StackUnderRoot(h', |h'.stack| - 1);
  }

  /**
   * ROOT/JOINT needs exactly two tokens and a next line that is exactly "{";
   * the new state is the joint opened by OpenJoint.
   */
  lemma JointLineMeaning(h: Hier, tokens: seq<string>, lines: seq<string>, next: nat)
    requires HierOk(h) && next <= |lines|
    ensures JointLine(h, tokens, lines, next).Success? <==>
      |tokens| == 2 && next < |lines| && Split(lines[next]) == ["{"]
    ensures JointLine(h, tokens, lines, next).Success? ==>
      JointLine(h, tokens, lines, next).value.h == OpenJoint(h, tokens[1])
    ensures |tokens| != 2 ==> JointLine(h, tokens, lines, next) == Failure(JointNameMissing)
    ensures |tokens| == 2 && next == |lines| ==> JointLine(h, tokens, lines, next) == Failure(UnexpectedEof)
  {
  }

  /** ROOT and JOINT lines are read alike: only the keyword differs. */
  lemma RootLikeJoint(h: Hier, name: string, lines: seq<string>, next: nat)
    requires HierOk(h) && next <= |lines|
    ensures HierarchyLine(h, ["ROOT", name], lines, next) == HierarchyLine(h, ["JOINT", name], lines, next)
    ensures HierarchyLine(h, ["ROOT", name], lines, next) == JointLine(h, ["ROOT", name], lines, next)
  {
  }

  /**
   * OFFSET needs exactly four tokens, an open joint and three numbers; it sets
   * the offset of the innermost open joint and changes nothing else.
   */
  lemma OffsetLineMeaning(h: Hier, tokens: seq<string>)
    requires HierOk(h)
    ensures OffsetLine(h, tokens).Success? <==>
      |tokens| == 4 && h.stack != [] && ReadOffset(tokens).Success?
    ensures |tokens| != 4 ==> OffsetLine(h, tokens) == Failure(OffsetMalformed)
    ensures |tokens| == 4 && h.stack == [] ==> OffsetLine(h, tokens) == Failure(NoOpenJoint)
    ensures OffsetLine(h, tokens).Success? ==>
      var h' := OffsetLine(h, tokens).value;
      var j := Top(h);
      h'.joints == h.joints[j := h.joints[j].(offset := Some(ReadOffset(tokens).value))] &&
      h'.root == h.root && h'.stack == h.stack && h'.channels == h.channels
  {
  }

  /**
   * A CHANNELS line succeeds exactly when its count is a number equal to the
   * number of literals after it, every literal names a channel type, and a
   * joint is open unless the count is zero.
   */
  lemma ChannelsLineAccepts(h: Hier, tokens: seq<string>)
    requires HierOk(h)
    ensures ChannelsLine(h, tokens).Success? <==>
      |tokens| >= 2 && ParseInt(tokens[1]) == Some(|tokens| - 2) &&
      (|tokens| == 2 || h.stack != []) &&
      forall k :: 2 <= k < |tokens| ==> ParseChannelType(tokens[k]).Some?
    ensures |tokens| < 2 ==> ChannelsLine(h, tokens) == Failure(ChannelCountMissing)
    ensures |tokens| >= 2 && ParseInt(tokens[1]).None? ==>
      ChannelsLine(h, tokens) == Failure(NumberFormat(tokens[1]))
  {
    if |tokens| >= 2 {
      var literals := tokens[2..];
      var target := if h.stack == [] then 0 else Top(h);
      ChannelsForAccepts(literals, target);
      var known := forall k :: 2 <= k < |tokens| ==> ParseChannelType(tokens[k]).Some?;
      assert known <==> forall k :: 0 <= k < |literals| ==> ParseChannelType(literals[k]).Some? by {
        assert forall k :: 2 <= k < |tokens| ==> tokens[k] == literals[k - 2];
      }
      var count := ParseInt(tokens[1]);
      if count.Some? && |tokens| == count.value + 2 && (count.value == 0 || h.stack != []) {
        assert ChannelsLine(h, tokens).Success? <==> ChannelsFor(literals, target).Success?;
      }
    }
  }

  /**
   * An accepted CHANNELS line appends one channel per literal, in order, of
   * the named type and targeting the innermost open joint, and changes
   * nothing else.
   */
  lemma ChannelsLineEffect(h: Hier, tokens: seq<string>)
    requires HierOk(h) && ChannelsLine(h, tokens).Success?
    ensures var h' := ChannelsLine(h, tokens).value;
      var m := |h.channels|;
      h'.joints == h.joints && h'.root == h.root && h'.stack == h.stack &&
      |h'.channels| == m + |tokens| - 2 && h'.channels[..m] == h.channels &&
      forall k :: m <= k < |h'.channels| ==>
        h.stack != [] && h'.channels[k].targetJoint == Top(h) &&
        TypeLiteral(h'.channels[k].channelType) == tokens[k - m + 2]
  {
    var literals := tokens[2..];
    var target := if h.stack == [] then 0 else Top(h);
    ChannelsForShape(literals, target);
    var h' := ChannelsLine(h, tokens).value;
    var added := ChannelsFor(literals, target).value;
    assert h'.channels == h.channels + added;
    forall k | |h.channels| <= k < |h'.channels|
      ensures h.stack != [] && h'.channels[k].targetJoint == Top(h)
      ensures TypeLiteral(h'.channels[k].channelType) == tokens[k - |h.channels| + 2]
    {
      assert h'.channels[k] == added[k - |h.channels|];
      assert literals[k - |h.channels|] == tokens[k - |h.channels| + 2];
    }
  }

  /**
   * "End Site" reads exactly "{", an OFFSET line and exactly "}" after it; it
   * marks the innermost open joint as having an end site at that offset and
   * changes nothing else.
   */
  lemma EndSiteMeaning(h: Hier, tokens: seq<string>, lines: seq<string>, next: nat)
    requires HierOk(h) && next <= |lines|
    ensures EndSiteLines(h, tokens, lines, next).Success? ==>
      var h' := EndSiteLines(h, tokens, lines, next).value.h;
      h.stack != [] && next + 2 < |lines| &&
      var j := Top(h);
      var off := ReadOffset(Split(lines[next + 1]));
      off.Success? &&
      h'.joints[j] == h.joints[j].(hasEndSite := true, endSite := Some(off.value)) &&
      (forall i :: 0 <= i < |h.joints| && i != j ==> h'.joints[i] == h.joints[i]) &&
      |h'.joints| == |h.joints| && h'.root == h.root && h'.stack == h.stack && h'.channels == h.channels
    ensures |tokens| != 2 || tokens[1] != "Site" ==>
      EndSiteLines(h, tokens, lines, next) == Failure(EndSiteMalformed)
    ensures |tokens| == 2 && tokens[1] == "Site" && h.stack == [] ==>
      EndSiteLines(h, tokens, lines, next) == Failure(NoOpenJoint)
    ensures |tokens| == 2 && tokens[1] == "Site" && h.stack != [] && next == |lines| ==>
      EndSiteLines(h, tokens, lines, next) == Failure(UnexpectedEof)
  {
  }

  /**
   * The converse of EndSiteMeaning: "End Site" under an open joint, followed
   * by exactly "{", an OFFSET line read_offset accepts and exactly "}", is
   * accepted and goes on after those three lines.
   */
  lemma EndSiteAccepts(h: Hier, tokens: seq<string>, lines: seq<string>, next: nat)
    requires HierOk(h) && next <= |lines|
    ensures EndSiteLines(h, tokens, lines, next).Success? <==>
      |tokens| == 2 && tokens[1] == "Site" &&
      h.stack != [] && next + 3 <= |lines| &&
      Split(lines[next]) == ["{"] && ReadOffset(Split(lines[next + 1])).Success? &&
      Split(lines[next + 2]) == ["}"]
  {
  }

  /** "}" pops exactly the innermost open joint, and is an error when none is open. */
  lemma CloseLineMeaning(h: Hier)
    requires HierOk(h)
    ensures CloseLine(h).Success? <==> h.stack != []
    ensures CloseLine(h).Success? ==>
      var h' := CloseLine(h).value;
      h'.stack + [Top(h)] == h.stack && h'.joints == h.joints && h'.root == h.root && h'.channels == h.channels
  {
  }

  /** Blank lines, HIERARCHY and lines with an unknown first token change nothing. */
  lemma SkippedLines(h: Hier, tokens: seq<string>, lines: seq<string>, next: nat)
    requires HierOk(h) && next <= |lines|
    requires tokens == [] ||
      tokens[0] !in {"ROOT", "JOINT", "OFFSET", "CHANNELS", "End", "}", "MOTION"}
    ensures HierarchyLine(h, tokens, lines, next) == Success(Continue(h, next))
  {
  }
}
