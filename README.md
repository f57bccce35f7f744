# bvh11 reader, modelled in Dafny

This project models the BVH (Biovision Hierarchy) reader of bvh11 and proves
what it does. A BVH file has two parts:

- a HIERARCHY part that declares a tree of joints, each with an offset, an
  optional end site and a list of channels;
- a MOTION part that gives a frame count, a frame time, and one line of
  numbers per frame, one number per channel.

The model covers:

- **The tokeniser** (`Tokenizer`). It splits a line on runs of white space,
  reads the next line of the input, and reads an OFFSET line.
- **The channel types** (`Channels`). This is the enum, the literal the
  printer writes for each type, and the table the reader uses to turn a
  literal back into a type.
- **The joints** (`Joints`). The `shared_ptr`-linked joints live in an
  arena: a joint is an index into a `seq<JointRec>` held by the `Skeleton`
  class. The class's methods are the mutators of `Joint`: the constructor,
  `AddChild`, `AssociateChannel`, and the writes through `offset()`,
  `has_end_site()` and `end_site()`.
- **The traversals** (`JointTree`). These are the pre-order joint list of
  `GetJointList` and the indented lines of `PrintJointSubHierarchy`.
- **The two phases of `ReadBvhFile`, as pure functions of the input lines.**
  `Hierarchy` is the keyword dispatch loop with its stack of open joints.
  `Motion` is the header lines and the frame table.
- **`BvhObject`** (`Bvh`). This class holds the imperative reader
  (`ReadBvhFile` with its hierarchy loop, its channel loop and its frame
  loop), `ResizeFrames`, and the queries. Each reader method is proved to
  compute exactly the pure functions above.

Every `assert` of the reader is a `ParseError`, and a read that hits one fails
as a whole. An exception thrown by `std::stoi` or `std::stod`, which the reader
does not catch, is an error too, and so is `stack.back()` on an empty stack,
which is undefined behaviour.

Where the documented file format and the code differ, the model follows the
code:

- A line whose first token is not a keyword is skipped.
- A second ROOT line, with no joint open, replaces the root.
- Tokens after `}`, `HIERARCHY` or `MOTION` on the same line are ignored.
- A line after the last frame is never read.
- A frame count or channel count written as `+3` or `3abc` is accepted, as
  `std::stoi` accepts it.

## Model

| member | source | states |
|---|---|---|
| Numbers.ParseIntOfDecimal | include/bvh11/bvh11.hpp:119 | std::stoi reads back the decimal spelling of any 32-bit int, whatever non-digit text follows it |
| Numbers.ParseInt | include/bvh11/bvh11.hpp:119 | std::stoi, as at lines 119 and 185, gives a value in the 32-bit int range or fails; ParseIntUnsigned, ParseIntSigned and ParseIntOfDecimal state which value |
| Numbers.ParseIntOfDigits | include/bvh11/bvh11.hpp:185 | std::stoi on a digit run followed by a non-digit gives the value of the run, or fails above INT_MAX |
| Numbers.ParseIntOfNegativeDigits | include/bvh11/bvh11.hpp:119 | std::stoi on '-', a digit run and a non-digit gives the negated value of the run, or fails below INT_MIN |
| Numbers.ParseIntUnsigned | include/bvh11/bvh11.hpp:185 | std::stoi on text that starts with a digit gives the value of the leading digit run, or fails when that value exceeds INT_MAX |
| Numbers.ParseIntSigned | include/bvh11/bvh11.hpp:185 | std::stoi on '-' then digits gives the negated value of the digit run, or fails below INT_MIN |
| Numbers.ParseNum | include/bvh11/internal_functions.hpp:40-42 | the model's std::stod accepts a token exactly when, after white space and a sign, it starts with a digit or with '.' and a digit, and the number read is the token itself |
| Numbers.ParseNumOfDecimal | include/bvh11/bvh11.hpp:204 | every integer spelling is also a number std::stod accepts |
| Numbers.DigitsValueOfNatDigits | include/bvh11/bvh11.hpp:185 | the digits of a natural number read back as that number |
| Tokenizer.Split | include/bvh11/internal_functions.hpp:15-21 | no token of a split line is empty or contains white space |
| Tokenizer.SplitAfterSpace | include/bvh11/internal_functions.hpp:20 | leading white space produces no empty first token: it does not change the tokens |
| Tokenizer.SplitAfterToken | include/bvh11/internal_functions.hpp:15-21 | a token followed by white space or the end of the line is split off whole, as the first token |
| Tokenizer.SplitEmptyIffSpace | include/bvh11/internal_functions.hpp:15-21 | a line has no tokens if and only if it is empty or white space only |
| Tokenizer.SplitJoin | include/bvh11/internal_functions.hpp:15-21 | splitting the single-space join of non-empty, space-free tokens gives those tokens back |
| Tokenizer.SplitGlue | include/bvh11/internal_functions.hpp:15-21 | any line laid out as tokens with white space around them and non-empty white space between them splits into exactly those tokens |
| Tokenizer.GapsSeparate | include/bvh11/internal_functions.hpp:15-21 | the pieces between the tokens of a split line are white space, and non-empty between two tokens: the tokens are maximal runs |
| Tokenizer.GapsGlue | include/bvh11/internal_functions.hpp:15-21 | the tokens of a line, put back between its white-space pieces, rebuild the line in left-to-right order |
| Tokenizer.GlueWiderGap | include/bvh11/internal_functions.hpp:15-21 | one more white-space character in the first piece is one more leading character of the rebuilt line |
| Tokenizer.ReadOffset | include/bvh11/internal_functions.hpp:37-44 | read_offset succeeds if and only if there are four tokens, the first is OFFSET and the other three are numbers; it then gives tokens 1, 2, 3 as (x, y, z); the wrong shape is OffsetMalformed |
| Tokenizer.TokenizeAt | include/bvh11/internal_functions.hpp:23-35 | the line at the cursor gives tokens exactly when it exists, each a non-empty run without white space; past the end it is UnexpectedEof |
| Tokenizer.ReadNum | include/bvh11/internal_functions.hpp:40-42 | one std::stod call succeeds exactly when ParseNum accepts the token and gives the token's number; otherwise it is NumberFormat of that token |
| Tokenizer.LineSource.GetLine | include/bvh11/internal_functions.hpp:26 | std::getline returns the line at the cursor and moves the cursor past it, or returns nothing at the end of input |
| Tokenizer.LineSource.TokenizeNextLine | include/bvh11/internal_functions.hpp:23-35 | tokenize_next_line consumes exactly one line and returns its split, or fails with UnexpectedEof at the end of input, leaving the cursor where it is |
| Channels.AllChannelTypes | include/bvh11/Channel.hpp:14-18 | the enum has exactly six members, pairwise distinct, in declaration order |
| Channels.TypeLiteral | include/bvh11/Channel.hpp:30-53 | the printed literal of a type is its axis letter followed by "position" or "rotation" |
| Channels.TypeLiteralInjective | include/bvh11/Channel.hpp:30-53 | the printer is injective: the six literals are pairwise distinct |
| Channels.ParseChannelType | include/bvh11/bvh11.hpp:125-136 | the reader's table gives a type whose literal is the string, and rejects exactly the strings that are no type's literal |
| Channels.ParseTypeLiteral | include/bvh11/bvh11.hpp:127-132 | reading the printed literal of any type gives that type back: the table and the printer are inverse bijections |
| Joints.SameShapeKeepsArenaOk | include/bvh11/Joint.hpp:16-23 | writing fields other than the parent and child links keeps the joints a well-linked forest |
| Joints.NewJointRec | include/bvh11/Joint.hpp:14 | the constructor sets the name and parent, and the joint starts with no children, no channel indices and no end site |
| Joints.NewRootKeepsArenaOk | include/bvh11/bvh11.hpp:94-98 | a new joint without a parent, appended to a forest, is a new tree: the joints stay a well-linked forest |
| Joints.NewChildKeepsArenaOk | include/bvh11/bvh11.hpp:94-97 | a new joint created under p and added as the last child of p keeps the joints a well-linked forest |
| Joints.Skeleton.NewJoint | include/bvh11/Joint.hpp:14 | a new joint has the given name and parent, no end site, no children, no channels; every earlier joint is kept |
| Joints.Skeleton.AddChild | include/bvh11/Joint.hpp:31-34 | the child goes at the end of the children list; nothing else changes, and names and parents are kept |
| Joints.Skeleton.AssociateChannel | include/bvh11.hpp:115 | the index goes at the end of the joint's channel index list; nothing else changes |
| Joints.Skeleton.SetOffset | include/bvh11/Joint.hpp:17 | writing the offset changes the offset of that joint only |
| Joints.Skeleton.SetHasEndSite | include/bvh11/Joint.hpp:20 | writing has_end_site changes that flag of that joint only |
| Joints.Skeleton.SetEndSite | include/bvh11/Joint.hpp:23 | writing the end site changes the end site of that joint only |
| JointTree.SubtreeSound | include/bvh11/bvh11.hpp:36-40 | every joint that add_joint lists from j is j or a descendant of j |
| JointTree.SubtreeComplete | include/bvh11/bvh11.hpp:36-40 | every descendant of j is listed by add_joint from j |
| JointTree.SubtreeDistinct | include/bvh11/bvh11.hpp:36-40 | add_joint lists no joint twice |
| JointTree.SubtreeJoints | include/bvh11/bvh11.hpp:36-40 | add_joint lists j first; SubtreeSound, SubtreeComplete and SubtreeDistinct state what else it lists |
| JointTree.ForestJoints | include/bvh11/bvh11.hpp:39 | the subtrees of the children, in order, list at least one joint per child, the first child first |
| JointTree.JointListIsTree | include/bvh11/bvh11.hpp:33-43 | the list from r starts with r and holds exactly the descendants of r, each once |
| JointTree.Indent | include/bvh11/bvh11.hpp:212 | the indentation of depth d is 2d spaces |
| JointTree.LinesAt | include/bvh11/bvh11.hpp:212-213 | line k of a listing is the indented name of the k-th joint |
| JointTree.PrintSubtreeLines | include/bvh11/bvh11.hpp:210-216 | PrintJointSubHierarchy at a joint's depth prints one line per joint of the joint list, in the same order, each its name indented by two spaces per level |
| JointTree.PrintForestLines | include/bvh11/bvh11.hpp:215 | printing the children one after the other gives the lines of their subtrees, in order |
| JointTree.PrintSubtree | include/bvh11/bvh11.hpp:210-216 | PrintJointSubHierarchy prints one line per joint add_joint lists, the first the joint's own name behind two spaces per level of depth; PrintSubtreeLines states every line |
| JointTree.PrintForest | include/bvh11/bvh11.hpp:215 | the recursive calls on the children print one line per joint of their subtrees |
| Hierarchy.OpenJointKeepsOk | include/bvh11/bvh11.hpp:83-101 | creating a joint keeps the reader invariant: a well-linked forest, a parentless root, the stack a path from the root, channels on existing joints |
| Hierarchy.OpenJointEffect | include/bvh11/bvh11.hpp:83-101 | ROOT/JOINT appends one new joint, makes it the last child of the stack top or else the root (replacing an earlier one), pushes it, and leaves every earlier joint's name and parent alone; the new joint lies under the root |
| Hierarchy.OpenJoint | include/bvh11/bvh11.hpp:90-101 | ROOT/JOINT adds exactly one joint and pushes it on the stack; OpenJointEffect and OpenJointKeepsOk state the rest |
| Hierarchy.RootLikeJoint | include/bvh11/bvh11.hpp:83 | ROOT and JOINT lines are read alike |
| Hierarchy.StackUnderRoot | include/bvh11/bvh11.hpp:91-101 | every joint on the stack lies under the root |
| Hierarchy.JointLine | include/bvh11/bvh11.hpp:83-107 | an accepted ROOT/JOINT line consumes exactly the next line, which splits to exactly "{", and keeps the invariant; JointLineMeaning states when it is accepted and what it does |
| Hierarchy.JointLineMeaning | include/bvh11/bvh11.hpp:83-107 | ROOT/JOINT succeeds if and only if it has two tokens and a next line that splits to exactly "{", and the new state is OpenJoint's; another token count is JointNameMissing and no next line is UnexpectedEof |
| Hierarchy.OffsetLineMeaning | include/bvh11/bvh11.hpp:109-114 | OFFSET succeeds if and only if it has four tokens, a joint is open and read_offset succeeds; it sets the offset of the stack top only |
| Hierarchy.OffsetLine | include/bvh11/bvh11.hpp:109-114 | an accepted OFFSET line keeps the reader invariant |
| Hierarchy.ChannelsForShape | include/bvh11/bvh11.hpp:122-139 | the channel loop appends one channel per literal, in order, of the type the literal names, targeting the given joint |
| Hierarchy.ChannelsForAccepts | include/bvh11/bvh11.hpp:122-139 | the channel loop succeeds if and only if every literal names a channel type |
| Hierarchy.ChannelsForError | include/bvh11/bvh11.hpp:134 | a failed channel loop reports one of its literals, which names no type |
| Hierarchy.ChannelsForPrefix | include/bvh11/bvh11.hpp:122 | the literals are read in order: a failing prefix decides the error of the whole line |
| Hierarchy.ChannelsFor | include/bvh11/bvh11.hpp:122-139 | the channel loop gives one channel per literal when it succeeds and an UnknownChannelType error when it fails; ChannelsForShape, ChannelsForAccepts and ChannelsForError state the rest |
| Hierarchy.ChannelsLine | include/bvh11/bvh11.hpp:116-140 | an accepted CHANNELS line keeps the reader invariant |
| Hierarchy.ChannelsLineAccepts | include/bvh11/bvh11.hpp:116-140 | CHANNELS succeeds if and only if the count reads as n, there are exactly n + 2 tokens, every literal names a type, and a joint is open when n > 0; fewer than two tokens is ChannelCountMissing and a bad count is NumberFormat |
| Hierarchy.ChannelsLineEffect | include/bvh11/bvh11.hpp:116-140 | an accepted CHANNELS line appends exactly n channels in token order, each targeting the stack top, and changes nothing else |
| Hierarchy.EndSiteLines | include/bvh11/bvh11.hpp:142-162 | an accepted End Site consumes the next three lines: exactly "{", an OFFSET line read_offset accepts, and exactly "}" |
| Hierarchy.EndSiteMeaning | include/bvh11/bvh11.hpp:142-162 | End Site sets has_end_site and the end site of the stack top only, keeps the stack; "End" without exactly "Site" is EndSiteMalformed, no open joint is NoOpenJoint, a missing "{" line is UnexpectedEof |
| Hierarchy.EndSiteAccepts | include/bvh11/bvh11.hpp:142-162 | End Site succeeds if and only if "Site" is the second of two tokens, a joint is open, and the next three lines are exactly "{", an OFFSET line read_offset accepts, and exactly "}" |
| Hierarchy.CloseLine | include/bvh11/bvh11.hpp:164-168 | an accepted "}" keeps the reader invariant |
| Hierarchy.CloseLineMeaning | include/bvh11/bvh11.hpp:164-168 | "}" succeeds if and only if a joint is open, and pops exactly that joint |
| Hierarchy.SkippedLines | include/bvh11/bvh11.hpp:72-81 | blank lines, HIERARCHY and lines with an unknown first token change nothing |
| Hierarchy.HierarchyLine | include/bvh11/bvh11.hpp:69-173 | one pass of the loop keeps the invariant, consumes no MOTION line, and leaves the phase if and only if its own line is a MOTION line |
| Hierarchy.HierarchyFrom | include/bvh11/bvh11.hpp:63-176 | the hierarchy phase succeeds only by stopping right after a MOTION line, with the invariant kept, so a file without a MOTION line is rejected |
| Hierarchy.HierarchyFromFirstMotion | include/bvh11/bvh11.hpp:63-176 | the line the hierarchy phase stops after is the first MOTION line: no line before it is one |
| Hierarchy.HierarchyFromStep | include/bvh11/bvh11.hpp:67-174 | the line at the cursor decides the rest of the phase: its error, its MOTION, or the loop from the next line |
| Hierarchy.HierarchyTurn | include/bvh11/bvh11.hpp:67-174 | a loop turn that does what one pass says leaves the rest of the phase to the loop from where it stopped |
| Motion.FramesLine | include/bvh11/bvh11.hpp:182-185 | "Frames:" succeeds if and only if there are two tokens, the first is "Frames:" and std::stoi reads the second, and gives that value |
| Motion.FrameTimeLine | include/bvh11/bvh11.hpp:188-191 | "Frame Time:" succeeds if and only if there are three tokens "Frame", "Time:" and a number, and gives that number |
| Motion.ParseRowMeaning | include/bvh11/bvh11.hpp:202-205 | a frame line is read if and only if every token is a number, and then cell j is token j |
| Motion.ParseRowPrefix | include/bvh11/bvh11.hpp:202-205 | cells are read left to right: a failing prefix decides the error |
| Motion.ParseRow | include/bvh11/bvh11.hpp:202-205 | an accepted frame line gives one cell per token; a rejected one is NumberFormat of one of its tokens |
| Motion.FrameRow | include/bvh11/bvh11.hpp:199-205 | an accepted frame line exists and gives width cells; a line with another token count is FrameColumnMismatch of the frame index; no line is UnexpectedEof |
| Motion.FrameRowMeaning | include/bvh11/bvh11.hpp:199-205 | an accepted frame line has exactly width tokens, and cell j is token j |
| Motion.ReadRows | include/bvh11/bvh11.hpp:197-206 | an accepted frame loop gives count rows of width cells each |
| Motion.ReadRowsRow | include/bvh11/bvh11.hpp:197-206 | row i of an accepted table is the frame read from the i-th frame line |
| Motion.ReadRowsShape | include/bvh11/bvh11.hpp:197-206 | a read table has one row per frame line, each of the channel count, with cell (i, j) the j-th token of the i-th frame line |
| Motion.ReadRowsAccepts | include/bvh11/bvh11.hpp:197-206 | the frames are read if and only if the frame lines exist and each has exactly one number per channel |
| Motion.FrameRowAccepts | include/bvh11/bvh11.hpp:199-200 | one frame is read if and only if its line exists and has exactly one number per channel |
| Motion.ReadRowsPrefix | include/bvh11/bvh11.hpp:197 | frames are read in order: a failing prefix decides the error |
| Motion.ReadRowsStep | include/bvh11/bvh11.hpp:197-206 | each frame either extends the table or is the error of the whole frame loop |
| Motion.ReadRowsIgnoresTrailing | include/bvh11/bvh11.hpp:197-206 | lines after the last frame do not change the table |
| Motion.MotionHeader | include/bvh11/bvh11.hpp:182-191 | an accepted header consumes exactly two lines |
| Motion.MotionFrom | include/bvh11/bvh11.hpp:179-207 | an accepted motion section has exactly frames rows of exactly width cells, all on existing lines |
| Motion.MotionFromMeaning | include/bvh11/bvh11.hpp:179-207 | the frame count is std::stoi of the Frames token, the frame time is the Frame Time token, and cell (i, j) is token j of the i-th line after the header |
| Motion.MotionIgnoresTrailing | include/bvh11/bvh11.hpp:179-207 | lines after the last frame do not change the motion section |
| Bvh.ReadBvh | include/bvh11/bvh11.hpp:56-208 | an accepted file gives a consistent object: a forest with a parentless root, channels on existing joints, and a frames-by-channels motion table |
| Bvh.ReadBvhParts | include/bvh11/bvh11.hpp:62-207 | an accepted file is the hierarchy up to its first MOTION line, followed by a motion section as wide as the number of channels declared |
| Bvh.ResizeToSameIsIdentity | include/bvh11.hpp:58-59 | resizing to the current number of frames changes nothing |
| Bvh.GrowThenShrinkRestores | include/bvh11.hpp:55-61 | growing and then shrinking back restores the original table |
| Bvh.ShrinkKeepsPrefix | include/bvh11.hpp:57-58 | shrinking keeps exactly the leading frames |
| Bvh.BvhObject.Open | include/bvh11/bvh11.hpp:20-23 | the constructor from a file succeeds exactly when the file reads, and then holds what the file says |
| Bvh.BvhObject.ReadBvhFile | include/bvh11/bvh11.hpp:56-208 | the reader succeeds exactly when ReadBvh does, and then the object holds ReadBvh's result; otherwise it fails with ReadBvh's error |
| Bvh.BvhObject.ReadHierarchy | include/bvh11/bvh11.hpp:63-176 | the hierarchy loop leaves the joints, root and channels of HierarchyFrom and stops right after MOTION, or fails with its error |
| Bvh.BvhObject.ReadHierarchyTurn | include/bvh11/bvh11.hpp:67-70 | one turn reads one line and does what one pass of HierarchyLine says |
| Bvh.BvhObject.ReadHierarchyLine | include/bvh11/bvh11.hpp:72-173 | the keyword dispatch does what HierarchyLine says |
| Bvh.BvhObject.ReadJoint | include/bvh11/bvh11.hpp:83-107 | the ROOT/JOINT branch does what JointLine says |
| Bvh.BvhObject.ReadOffsetLine | include/bvh11/bvh11.hpp:109-114 | the OFFSET branch does what OffsetLine says |
| Bvh.BvhObject.ReadChannels | include/bvh11/bvh11.hpp:116-121 | the CHANNELS branch does what ChannelsLine says |
| Bvh.BvhObject.AppendChannels | include/bvh11/bvh11.hpp:122-139 | the channel loop appends what ChannelsFor gives for the stack top, or fails with its error; with no open joint it is NoOpenJoint |
| Bvh.BvhObject.ReadEndSite | include/bvh11/bvh11.hpp:142-162 | the End Site branch does what EndSiteLines says |
| Bvh.BvhObject.ReadMotionHeader | include/bvh11/bvh11.hpp:182-191 | the frame count and frame time become those of MotionHeader, or it fails with its error |
| Bvh.BvhObject.ReadMotion | include/bvh11/bvh11.hpp:179-207 | the MOTION part leaves frames, frame time and motion as MotionFrom gives them, or fails with its error |
| Bvh.BvhObject.ReadFrames | include/bvh11/bvh11.hpp:197-206 | the frame loop gives ReadRows' table or its error |
| Bvh.BvhObject.ReadFrame | include/bvh11/bvh11.hpp:199-200 | one frame line consumes one line and gives FrameRow's row or its error |
| Bvh.BvhObject.ReadRow | include/bvh11/bvh11.hpp:202-205 | the cell loop of one frame gives ParseRow's cells or its error |
| Bvh.BvhObject.ResizeFrames | include/bvh11.hpp:55-61 | afterwards frames() is n and there are n rows; kept rows are unchanged, new rows have one value per channel, and channels, frame time, root and joints are unchanged |
| Bvh.BvhObject.GetJointList | include/bvh11/bvh11.hpp:33-43 | the joint list starts with the root and holds every joint of the tree exactly once; as a function of the object, two calls give the same list |
| Bvh.BvhObject.PrintJointHierarchy | include/bvh11/bvh11.hpp:45 | one line per joint of GetJointList, in that order, each the name behind two spaces per level below the root |
| Bvh.BvhObject.MotionRow | include/bvh11.hpp:38-48 | the frame a transformation query reads exists for 0 <= frame < frames(), with one value per channel |

## Left out

- Forward kinematics is not modelled: GetTransformationRelativeToParent, GetTransformation and GetRootTransformation work on Eigen `Affine3d` in floating point. Only their frame precondition is kept, as `MotionRow`.
- WriteBvhFile, WriteJointSubHierarchy and the `scale` argument of ReadBvhFile are not modelled. Their bodies are not part of this model.
- Numbers.ParseNum: the values of numbers are not modelled; a number is the token it was read from. Only decimal spellings are accepted: std::stod also accepts `inf`, `infinity` and `nan` (in any case, with or without a sign) and hexadecimal forms, which the model rejects, and it throws `std::out_of_range` on a value such as `1e999`, which the model accepts.
- File opening and its `is_open` assertion are not modelled, and neither is the cutting of the file into lines. The input is the sequence of lines that `std::getline` would return.
- Console output is not modelled. PrintJointHierarchy returns its lines instead of writing them to `std::cout`.
- `shared_ptr` ownership and aliasing are replaced by arena indices. A joint is its index in `Skeleton.joints`, and a channel's target joint is an index.
- Bvh.BvhObject.ReadFrames: the motion matrix is built row by row and then assigned, instead of being resized first and written cell by cell. The model does not capture the partly written matrix left by a failed read.
- Bvh.BvhObject.ResizeFrames: takes a `nat`. A negative argument, which Eigen's resize refuses, is not modelled. The source leaves new rows uninitialised; the method fills them with placeholder numbers, and its contract says only that each new row has one value per channel.
- Bvh.BvhObject.MotionRow: states only that the frame exists and has one value per channel. The transformation computed from it is out of scope.
- Bvh.BvhObject.GetJointList and Bvh.BvhObject.PrintJointHierarchy require a root. With no root, the source dereferences a null pointer.
- Hierarchy.ChannelsLine: `n + 2` is computed without 32-bit overflow. For a count of INT_MAX - 1 or INT_MAX, the source's `num_channels + 2` overflows `int`, which is undefined behaviour.
- A negative frame count is the error `NegativeFrameCount`: the source passes it to Eigen's resize, whose assertion refuses it.
- `stack.back()` on an empty stack is undefined behaviour in the source. The model reports it as the error `NoOpenJoint` (OFFSET, End Site, or a CHANNELS line with n > 0).
- The reader never calls `AssociateChannel`, so every joint's channel index list stays empty after a read. `Joints.Skeleton.AssociateChannel` is modelled on its own.
- The demos and the older headers under `bvh11/` are not part of this model.
