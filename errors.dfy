/**
 * Every `assert` of the reader, and every place where the reader would run into
 * undefined behaviour or an uncaught exception, becomes one of these errors.
 * A load that meets any of them is abandoned as a whole.
 */
module ParseErrors {

  datatype ParseError =
    | UnexpectedEof                   // tokenize_next_line found no further line
    | JointNameMissing                // a ROOT/JOINT line without exactly one name
    | OpenBraceExpected               // the line after ROOT/JOINT/End Site is not exactly "{"
    | CloseBraceExpected              // the line closing an End Site is not exactly "}"
    | OffsetMalformed                 // an OFFSET line without exactly four tokens
    | ChannelCountMissing             // a CHANNELS line with fewer than two tokens
    | ChannelCountMismatch            // a CHANNELS line whose token count is not n + 2
    | UnknownChannelType(literal: string)
    | EndSiteMalformed                // "End" not followed by exactly "Site"
    | NoOpenJoint                     // stack.back() on an empty stack
    | UnbalancedBraces                // "}" with an empty stack
    | MotionMissing                   // end of input before MOTION
    | FramesMalformed                 // the line after MOTION is not "Frames: <n>"
    | FrameTimeMalformed              // the next line is not "Frame Time: <t>"
    | NegativeFrameCount              // the motion matrix cannot have a negative row count
    | FrameColumnMismatch(row: nat)   // a frame line whose token count differs from the channel count
    | NumberFormat(token: string)     // std::stoi / std::stod could not convert the token
}
