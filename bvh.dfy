/**
 * BvhObject: the result of reading a BVH file (frame count, frame time,
 * channels, motion table and the joint tree), the reader that fills it, and
 * the queries and the frame resize on it.
 */
module Bvh {
  import opened Wrappers
  import opened ParseErrors
  import opened Numbers
  import opened Tokenizer
  import opened Channels
  import opened Joints
  import opened JointTree
  import opened Hierarchy
  import opened Motion

  /** The contents of a BvhObject as a value. */
  datatype Bvh = Bvh(
    frames: int,
    frameTime: Num,
    channels: seq<Channel>,
    motion: seq<seq<Num>>,
    joints: seq<JointRec>,
    root: Option<nat>)

  /**
   * A consistent object: the joints form a forest, the root (if any) is a
   * parentless joint, channels target existing joints, and the motion table
   * has one row per frame and one column per channel.
   */
  predicate BvhOk(b: Bvh) {
    ArenaOk(b.joints) &&
    (b.root.Some? ==> b.root.value < |b.joints| && b.joints[b.root.value].parent.None?) &&
    (forall k :: 0 <= k < |b.channels| ==> b.channels[k].targetJoint < |b.joints|) &&
    b.frames >= 0 && |b.motion| == b.frames &&
    (forall i :: 0 <= i < |b.motion| ==> |b.motion[i]| == |b.channels|)
  }

  /**
   * Reading a whole file: the hierarchy from the first line, then the motion
   * section right after the MOTION line, with one column per channel read.
   */
  function ReadBvh(lines: seq<string>): (r: Result<Bvh, ParseError>)
    ensures r.Success? ==> BvhOk(r.value)
  {
    var hp :- HierarchyFrom(Initial(), lines, 0);
    var m :- MotionFrom(lines, hp.1, |hp.0.channels|);
    Success(Bvh(m.frames, m.frameTime, hp.0.channels, m.rows, hp.0.joints, hp.0.root))
  }

  /**
   * An accepted file is the hierarchy section up to the first MOTION line,
   * followed by a motion section whose width is the number of channels the
   * hierarchy declared.
   */
  lemma ReadBvhParts(lines: seq<string>)
    requires ReadBvh(lines).Success?
    ensures var hp := HierarchyFrom(Initial(), lines, 0);
      hp.Success? && 0 < hp.value.1 && IsMotionLine(lines[hp.value.1 - 1]) &&
      (forall k :: 0 <= k < hp.value.1 - 1 ==> !IsMotionLine(lines[k])) &&
      var m := MotionFrom(lines, hp.value.1, |hp.value.0.channels|);
      m.Success? &&
      ReadBvh(lines).value ==
        Bvh(m.value.frames, m.value.frameTime, hp.value.0.channels, m.value.rows, hp.value.0.joints, hp.value.0.root)
  {
    HierarchyFromFirstMotion(Initial(), lines, 0);
  }

  /** The motion table after resizing `before` to `n` frames: kept frames unchanged, new frames arbitrary but well-shaped. */
  predicate Resized(before: seq<seq<Num>>, after: seq<seq<Num>>, n: nat, width: nat) {
    |after| == n &&
    (forall i :: 0 <= i < n && i < |before| ==> after[i] == before[i]) &&
    (forall i :: |before| <= i < n ==> |after[i]| == width)
  }

  /** Resizing to the current number of frames changes nothing. */
  lemma ResizeToSameIsIdentity(before: seq<seq<Num>>, after: seq<seq<Num>>, width: nat)
    requires Resized(before, after, |before|, width)
    ensures after == before
  {
  }

  /** Growing and then shrinking back to the original size restores the original table. */
  lemma GrowThenShrinkRestores(a: seq<seq<Num>>, b: seq<seq<Num>>, c: seq<seq<Num>>, n: nat, width: nat)
    requires |a| <= n && Resized(a, b, n, width) && Resized(b, c, |a|, width)
    ensures c == a
  {
  }

  /** Shrinking keeps exactly the leading frames. */
  lemma ShrinkKeepsPrefix(before: seq<seq<Num>>, after: seq<seq<Num>>, n: nat, width: nat)
    requires n <= |before| && Resized(before, after, n, width)
    ensures after == before[..n]
  {
  }

  class BvhObject {
    var frames: int
    var frameTime: Num
    var channels: seq<Channel>
    var motion: seq<seq<Num>>
    var root: Option<nat>
    /** The joints, which the shared pointers of the object refer to. */
    const skeleton: Skeleton

    /** The object as a value. */
    function State(): Bvh
      reads this, skeleton
    {
      Bvh(frames, frameTime, channels, motion, skeleton.joints, root)
    }

    ghost predicate Valid()
      reads this, skeleton
    {
      BvhOk(State())
    }

    /** The hierarchy reader state: the object's fields with the given stack of open joints. */
    function Cur(stack: seq<nat>): Hier
      reads this, skeleton
    {
      Hier(skeleton.joints, root, stack, channels)
    }

    /** An object before ReadBvhFile: no joints, no root, no channels, no frames. */
    constructor ()
      ensures Cur([]) == Initial() && frames == 0 && motion == []
      ensures fresh(skeleton)
    {
      frames := 0;
      frameTime := Num("0");
      channels := [];
      motion := [];
      root := None;
      skeleton := new Skeleton();
    }

    /**
     * The constructor BvhObject(file_path): a new object filled by
     * ReadBvhFile; a failed assertion of the reader is the error outcome.
     */
    static method Open(lines: seq<string>) returns (b: BvhObject, outcome: Outcome<ParseError>)
      ensures fresh(b) && fresh(b.skeleton)
      ensures outcome.Pass? <==> ReadBvh(lines).Success?
      ensures outcome.Pass? ==> b.State() == ReadBvh(lines).value && b.Valid()
      ensures outcome.Fail? ==> ReadBvh(lines) == Failure(outcome.error)
    {
      b := new BvhObject();
      outcome := b.ReadBvhFile(lines);
    }

    /** ReadBvhFile: the HIERARCHY part, then the MOTION part. */
    method ReadBvhFile(lines: seq<string>) returns (outcome: Outcome<ParseError>)
      requires Cur([]) == Initial()
      modifies this, skeleton
      ensures outcome.Pass? <==> ReadBvh(lines).Success?
      ensures outcome.Pass? ==> State() == ReadBvh(lines).value && Valid()
      ensures outcome.Fail? ==> ReadBvh(lines) == Failure(outcome.error)
    {
      var src := new LineSource(lines);
      outcome := ReadHierarchy(src);
      if outcome.Fail? {
        return;
      }
      outcome := ReadMotion(src);
    }

    /**
     * The HIERARCHY part: lines are read until MOTION, and the joints, root
     * and channels become those of the hierarchy spec.
     */
    method ReadHierarchy(src: LineSource) returns (outcome: Outcome<ParseError>)
      requires src.Valid() && Cur([]) == Initial()
      modifies this, skeleton, src
      ensures src.Valid()
      ensures var spec := HierarchyFrom(Initial(), src.lines, old(src.pos));
        (outcome.Pass? <==> spec.Success?) &&
        (outcome.Pass? ==>
           skeleton.joints == spec.value.0.joints && root == spec.value.0.root &&
           channels == spec.value.0.channels && src.pos == spec.value.1) &&
        (outcome.Fail? ==> spec == Failure(outcome.error))
      ensures frames == old(frames) && motion == old(motion)
    {
      var stack: seq<nat> := [];
      ghost var spec := HierarchyFrom(Initial(), src.lines, src.pos);
      while src.pos < |src.lines|
        invariant src.Valid()
        invariant HierOk(Cur(stack))
        invariant HierarchyFrom(Cur(stack), src.lines, src.pos) == spec
        invariant frames == old(frames) && motion == old(motion)
        decreases |src.lines| - src.pos
      {
        var motionFound;
        stack, outcome, motionFound := ReadHierarchyTurn(stack, src);
        if outcome.Fail? || motionFound {
          return;
        }
      }
      outcome := Fail(MotionMissing);
    }

    /** One turn of the hierarchy loop: read a line and act on it, as HierarchyFrom reads it. */
    method ReadHierarchyTurn(stack: seq<nat>, src: LineSource)
      returns (stack': seq<nat>, outcome: Outcome<ParseError>, motionFound: bool)
      requires src.Valid() && src.pos < |src.lines| && HierOk(Cur(stack))
      modifies this, skeleton, src
      ensures src.Valid()
      ensures frames == old(frames) && motion == old(motion)
      ensures outcome.Pass? && !motionFound ==> old(src.pos) < src.pos
      ensures var spec := HierarchyFrom(old(Cur(stack)), src.lines, old(src.pos));
        (outcome.Fail? ==> spec == Failure(outcome.error)) &&
        (outcome.Pass? && motionFound ==> spec == Success((Cur(stack'), src.pos))) &&
        (outcome.Pass? && !motionFound ==>
           HierOk(Cur(stack')) && spec == HierarchyFrom(Cur(stack'), src.lines, src.pos))
    {
      ghost var h := Cur(stack);
      ghost var pos := src.pos;
      var line := src.GetLine();
      var tokens := Split(line.value);
      stack', outcome, motionFound := ReadHierarchyLine(tokens, stack, src);
      HierarchyTurn(h, src.lines, pos, outcome, motionFound, Cur(stack'), src.pos);
    }

    /** One pass of the hierarchy loop, dispatched on the first token as the spec's HierarchyLine. */
    method ReadHierarchyLine(tokens: seq<string>, stack: seq<nat>, src: LineSource)
      returns (stack': seq<nat>, outcome: Outcome<ParseError>, motionFound: bool)
      requires src.Valid() && HierOk(Cur(stack))
      modifies this, skeleton, src
      ensures src.Valid()
      ensures frames == old(frames) && motion == old(motion)
      ensures var step := HierarchyLine(old(Cur(stack)), tokens, src.lines, old(src.pos));
        (outcome.Fail? ==> step == Failure(outcome.error)) &&
        (outcome.Pass? ==>
           step.Success? && step.value.h == Cur(stack') && step.value.next == src.pos &&
           (step.value.EnterMotion? <==> motionFound))
    {
      stack', outcome, motionFound := stack, Pass, false;
      if tokens == [] {
      } else if tokens[0] == "HIERARCHY" {
      } else if tokens[0] == "ROOT" || tokens[0] == "JOINT" {
        stack', outcome := ReadJoint(tokens, stack, src);
      } else if tokens[0] == "OFFSET" {
        outcome := ReadOffsetLine(tokens, stack);
      } else if tokens[0] == "CHANNELS" {
        outcome := ReadChannels(tokens, stack);
      } else if tokens[0] == "End" {
        outcome := ReadEndSite(tokens, stack, src);
      } else if tokens[0] == "}" {
        if stack == [] {
          outcome := Fail(UnbalancedBraces);
        } else {
          stack' := stack[..|stack| - 1];
        }
      } else if tokens[0] == "MOTION" {
        motionFound := true;
      }
    }

    /** ROOT / JOINT: create the joint, link it to the stack top or make it the root, push it, and expect "{". */
    method ReadJoint(tokens: seq<string>, stack: seq<nat>, src: LineSource)
      returns (stack': seq<nat>, outcome: Outcome<ParseError>)
      requires src.Valid() && HierOk(Cur(stack))
      modifies this, skeleton, src
      ensures src.Valid()
      ensures frames == old(frames) && motion == old(motion) && channels == old(channels)
      ensures var step := JointLine(old(Cur(stack)), tokens, src.lines, old(src.pos));
        (outcome.Fail? ==> step == Failure(outcome.error)) &&
        (outcome.Pass? ==> step == Success(Continue(Cur(stack'), src.pos)))
    {
      stack' := stack;
      if |tokens| != 2 {
        return stack', Fail(JointNameMissing);
      }
      var id: nat;
      if stack == [] {
        id := skeleton.NewJoint(tokens[1], None);
        root := Some(id);
      } else {
        var parent := stack[|stack| - 1];
        id := skeleton.NewJoint(tokens[1], Some(parent));
        skeleton.AddChild(parent, id);
      }
      stack' := stack + [id];
      assert Cur(stack') == OpenJoint(old(Cur(stack)), tokens[1]);
      var open := src.TokenizeNextLine();
      if open.Failure? {
        return stack', Fail(open.error);
      }
      if |open.value| != 1 || open.value[0] != "{" {
        return stack', Fail(OpenBraceExpected);
      }
      outcome := Pass;
    }

    /** OFFSET: the offset of the stack top. */
    method ReadOffsetLine(tokens: seq<string>, stack: seq<nat>) returns (outcome: Outcome<ParseError>)
      requires HierOk(Cur(stack))
      modifies skeleton
      ensures outcome.Fail? ==> OffsetLine(old(Cur(stack)), tokens) == Failure(outcome.error)
      ensures outcome.Pass? ==> OffsetLine(old(Cur(stack)), tokens) == Success(Cur(stack))
    {
      if |tokens| != 4 {
        return Fail(OffsetMalformed);
      }
      if stack == [] {
        return Fail(NoOpenJoint);
      }
      var offset := ReadOffset(tokens);
      if offset.Failure? {
        return Fail(offset.error);
      }
      skeleton.SetOffset(stack[|stack| - 1], offset.value);
      outcome := Pass;
    }

    /** CHANNELS: the count, then one channel per literal for the stack top, in order. */
    method ReadChannels(tokens: seq<string>, stack: seq<nat>) returns (outcome: Outcome<ParseError>)
      requires HierOk(Cur(stack))
      modifies this
      ensures frames == old(frames) && motion == old(motion) && root == old(root)
      ensures outcome.Fail? ==> ChannelsLine(old(Cur(stack)), tokens) == Failure(outcome.error)
      ensures outcome.Pass? ==> ChannelsLine(old(Cur(stack)), tokens) == Success(Cur(stack))
    {
      if |tokens| < 2 {
        return Fail(ChannelCountMissing);
      }
      var count := ParseInt(tokens[1]);
      if count.None? {
        return Fail(NumberFormat(tokens[1]));
      }
      var n := count.value;
      if |tokens| != n + 2 {
        return Fail(ChannelCountMismatch);
      }
      outcome := AppendChannels(tokens[2..], stack);
    }

    /** The loop of CHANNELS: for each literal, a channel of the stack top of that type. */
    method AppendChannels(literals: seq<string>, stack: seq<nat>) returns (outcome: Outcome<ParseError>)
      requires HierOk(Cur(stack))
      modifies this
      ensures frames == old(frames) && motion == old(motion) && root == old(root)
      ensures literals != [] && stack == [] ==> outcome == Fail(NoOpenJoint)
      ensures literals == [] || stack != [] ==>
        var spec := ChannelsFor(literals, if stack == [] then 0 else stack[|stack| - 1]);
        (outcome.Fail? ==> spec == Failure(outcome.error)) &&
        (outcome.Pass? ==> spec.Success? && channels == old(channels) + spec.value)
    {
      ghost var target := if stack == [] then 0 else stack[|stack| - 1];
      for i := 0 to |literals|
        invariant i > 0 ==> stack != []
        invariant ChannelsFor(literals[..i], target).Success?
        invariant channels == old(channels) + ChannelsFor(literals[..i], target).value
        invariant frames == old(frames) && motion == old(motion) && root == old(root)
      {
        if stack == [] {
          return Fail(NoOpenJoint);
        }
        var targetJoint := stack[|stack| - 1];
        var channelType := ParseChannelType(literals[i]);
        assert literals[..i + 1][..i] == literals[..i];
        if channelType.None? {
          ChannelsForPrefix(literals, i + 1, target);
          return Fail(UnknownChannelType(literals[i]));
        }
        channels := channels + [Channel(channelType.value, targetJoint)];
      }
      assert literals[..|literals|] == literals;
      outcome := Pass;
    }

    /** End Site: mark the stack top, then "{", the OFFSET of the end site and "}". */
    method ReadEndSite(tokens: seq<string>, stack: seq<nat>, src: LineSource) returns (outcome: Outcome<ParseError>)
      requires src.Valid() && HierOk(Cur(stack))
      modifies skeleton, src
      ensures src.Valid()
      ensures var step := EndSiteLines(old(Cur(stack)), tokens, src.lines, old(src.pos));
        (outcome.Fail? ==> step == Failure(outcome.error)) &&
        (outcome.Pass? ==> step == Success(Continue(Cur(stack), src.pos)))
    {
      if |tokens| != 2 || tokens[1] != "Site" {
        return Fail(EndSiteMalformed);
      }
      if stack == [] {
        return Fail(NoOpenJoint);
      }
      var current := stack[|stack| - 1];
      skeleton.SetHasEndSite(current, true);
      var open := src.TokenizeNextLine();
      if open.Failure? {
        return Fail(open.error);
      }
      if |open.value| != 1 || open.value[0] != "{" {
        return Fail(OpenBraceExpected);
      }
      var offsetTokens := src.TokenizeNextLine();
      if offsetTokens.Failure? {
        return Fail(offsetTokens.error);
      }
      var offset := ReadOffset(offsetTokens.value);
      if offset.Failure? {
        return Fail(offset.error);
      }
      skeleton.SetEndSite(current, offset.value);
      var close := src.TokenizeNextLine();
      if close.Failure? {
        return Fail(close.error);
      }
      if |close.value| != 1 || close.value[0] != "}" {
        return Fail(CloseBraceExpected);
      }
      outcome := Pass;
    }

    /** The header of the MOTION part: "Frames:" and "Frame Time:". */
    method ReadMotionHeader(src: LineSource) returns (outcome: Outcome<ParseError>)
      requires src.Valid()
      modifies this, src
      ensures src.Valid()
      ensures channels == old(channels) && root == old(root)
      ensures var spec := MotionHeader(src.lines, old(src.pos));
        (outcome.Pass? ==> spec == Success((frames, frameTime)) && src.pos == old(src.pos) + 2) &&
        (outcome.Fail? ==> spec == Failure(outcome.error))
    {
      var framesTokens := src.TokenizeNextLine();
      if framesTokens.Failure? {
        return Fail(framesTokens.error);
      }
      var count := FramesLine(framesTokens.value);
      if count.Failure? {
        return Fail(count.error);
      }
      frames := count.value;
      var timeTokens := src.TokenizeNextLine();
      if timeTokens.Failure? {
        return Fail(timeTokens.error);
      }
      var time := FrameTimeLine(timeTokens.value);
      if time.Failure? {
        return Fail(time.error);
      }
      frameTime := time.value;
      outcome := Pass;
    }

    /**
     * The MOTION part: the frame count, the frame time, then one row per frame
     * with one number per channel.
     */
    method ReadMotion(src: LineSource) returns (outcome: Outcome<ParseError>)
      requires src.Valid()
      modifies this, src
      ensures src.Valid()
      ensures channels == old(channels) && root == old(root)
      ensures var spec := MotionFrom(src.lines, old(src.pos), |channels|);
        (outcome.Pass? <==> spec.Success?) &&
        (outcome.Pass? ==>
           frames == spec.value.frames && frameTime == spec.value.frameTime && motion == spec.value.rows) &&
        (outcome.Fail? ==> spec == Failure(outcome.error))
    {
      ghost var start := src.pos;
      outcome := ReadMotionHeader(src);
      if outcome.Fail? {
        return;
      }
      if frames < 0 {
        return Fail(NegativeFrameCount);
      }
      var rows := ReadFrames(src, frames, |channels|);
      if rows.Failure? {
        return Fail(rows.error);
      }
      motion := rows.value;
    }

    /** The frame loop of the MOTION part: `count` rows of `width` numbers, one per channel. */
    static method ReadFrames(src: LineSource, count: nat, width: nat) returns (rows: Result<seq<seq<Num>>, ParseError>)
      requires src.Valid()
      modifies src
      ensures src.Valid()
      ensures rows == ReadRows(src.lines, old(src.pos), count, width)
    {
      ghost var start := src.pos;
      var table: seq<seq<Num>> := [];
      var frameIndex := 0;
      while frameIndex < count
        invariant 0 <= frameIndex <= count
        invariant src.Valid() && src.pos == start + frameIndex
        invariant ReadRows(src.lines, start, frameIndex, width) == Success(table)
      {
        var row := ReadFrame(src, frameIndex, width);
        ReadRowsStep(src.lines, start, frameIndex, count, width, table, row);
        if row.Failure? {
          return Failure(row.error);
        }
        table := table + [row.value];
        frameIndex := frameIndex + 1;
      }
      rows := Success(table);
    }

    /** One frame: a line of exactly one number per channel. */
    static method ReadFrame(src: LineSource, frameIndex: nat, width: nat) returns (row: Result<seq<Num>, ParseError>)
      requires src.Valid()
      modifies src
      ensures src.Valid() && src.pos == if old(src.pos) < |src.lines| then old(src.pos) + 1 else old(src.pos)
      ensures row == FrameRow(src.lines, old(src.pos), frameIndex, width)
    {
      var tokens := src.TokenizeNextLine();
      if tokens.Failure? {
        return Failure(tokens.error);
      }
      if |tokens.value| != width {
        return Failure(FrameColumnMismatch(frameIndex));
      }
      row := ReadRow(tokens.value);
    }

    /** The cells of one frame line, read left to right. */
    static method ReadRow(tokens: seq<string>) returns (row: Result<seq<Num>, ParseError>)
      ensures row == ParseRow(tokens)
    {
      var cells: seq<Num> := [];
      for channelIndex := 0 to |tokens|
        invariant ParseRow(tokens[..channelIndex]) == Success(cells)
      {
        var cell := ReadNum(tokens[channelIndex]);
        assert tokens[..channelIndex + 1][..channelIndex] == tokens[..channelIndex];
        if cell.Failure? {
          ParseRowPrefix(tokens, channelIndex + 1);
          return Failure(cell.error);
        }
        cells := cells + [cell.value];
      }
      assert tokens[..|tokens|] == tokens;
      row := Success(cells);
    }

    /**
     * ResizeFrames: frames beyond the new count are dropped, kept frames are
     * unchanged, and added frames have one (uninitialised) value per channel.
     */
    method ResizeFrames(numNewFrames: nat)
      requires Valid()
      modifies this
      ensures Valid()
      ensures frames == numNewFrames && Resized(old(motion), motion, numNewFrames, |channels|)
      ensures frameTime == old(frameTime) && channels == old(channels) && root == old(root)
      ensures skeleton.joints == old(skeleton.joints)
    {
      if numNewFrames <= |motion| {
        motion := motion[..numNewFrames];
      } else {
        var width := |channels|;
        var extra: nat := numNewFrames - |motion|;
        // the contract leaves the values of new frames unspecified
        var added := seq(extra, _ => seq(width, _ => Num("0")));
        ghost var kept := motion;
        motion := motion + added;
        forall i | |kept| <= i < numNewFrames
          ensures |motion[i]| == width
        {
          assert motion[i] == added[i - |kept|];
        }
      }
      frames := numNewFrames;
    }

    /** GetJointList: the joints under the root in pre-order, each exactly once, the root first. */
    function GetJointList(): (list: seq<nat>)
      requires Valid() && root.Some?
      reads this, skeleton
      ensures list != [] && list[0] == root.value && Distinct(list)
      ensures forall x: nat :: x in list <==> x < |skeleton.joints| && IsAncestor(skeleton.joints, root.value, x)
    {
      JointListIsTree(skeleton.joints, root.value);
      SubtreeJoints(skeleton.joints, root.value)
    }

    /**
     * PrintJointHierarchy: one line per joint of GetJointList, in that order,
     * each the joint's name indented by two spaces per level below the root.
     */
    function PrintJointHierarchy(): (out: seq<string>)
      requires Valid() && root.Some?
      reads this, skeleton
      ensures |out| == |GetJointList()|
      ensures forall k :: 0 <= k < |out| ==>
        GetJointList()[k] < |skeleton.joints| &&
        out[k] == Indent(Depth(skeleton.joints, GetJointList()[k])) + skeleton.joints[GetJointList()[k]].name
    {
      PrintSubtreeLines(skeleton.joints, root.value);
      LinesAt(skeleton.joints, SubtreeJoints(skeleton.joints, root.value));
      PrintSubtree(skeleton.joints, root.value, 0)
    }

    /**
     * The frame data a transformation query reads: it exists exactly for
     * frames between 0 and frames() - 1, one value per channel.
     */
    function MotionRow(frame: int): (row: seq<Num>)
      requires Valid() && 0 <= frame < frames
      reads this, skeleton
      ensures |row| == |channels|
    {
      motion[frame]
    }
  }
}
