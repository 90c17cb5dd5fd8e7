/** What a successful stack analysis promises about every run. */
module Flow {
  import opened Bytes
  import opened Machine
  import opened Simulation

  /** What the analysis leaves in a word. */
  datatype Info = Info(effect: SType, maxDataStack: int, maxReturnStack: int)

  /** The analysis of one word: stack action on entry to each opcode (None if never reached), at its exits,
      the deepest point relative to the entry, and the two maxima before the word's own frame is added. */
  datatype Trace = Trace(sa: seq<Option<int>>, exitSA: Option<int>, maxDepth: int, mds: int, mrs: int)

  /** Net change of the data stack by one opcode, given what is known of the called words. */
  function Delta(t: seq<Info>, op: Op): int {
    if op.Call? then
      if op.w < |t| && !t[op.w].effect.NoExit() then t[op.w].effect.dout - t[op.w].effect.din else 0
    else op.StackAction()
  }

  /** May execution go on to the next opcode? */
  predicate Continues(t: seq<Info>, op: Op) {
    if op.Call? then op.w < |t| && !t[op.w].effect.NoExit() else op.MayFallThrough()
  }

  /** A reached call: the callee's effect is known, and its needs are within the maxima. */
  predicate CallTraced(t: seq<Info>, tr: Trace, c: int, w: nat) {
    w < |t| && t[w].effect.IsKnown()
    && tr.maxDepth <= c - t[w].effect.din
    && c + t[w].maxDataStack <= tr.mds && t[w].maxReturnStack <= tr.mrs
  }

  /** What must hold at opcode k with stack action c: the maxima cover it. */
  predicate OpCovered(t: seq<Info>, op: Op, tr: Trace, c: int) {
    var c' := c + Delta(t, op);
    tr.maxDepth <= c && tr.maxDepth <= c'
    && (op.Call? ==> CallTraced(t, tr, c, op.w))
    && (op.Ret? ==> tr.exitSA == Some(c))
    && (!op.Call? && !op.Ret? ==> c' <= tr.mds)
  }

  /** The opcodes control may pass to have the stack action left by opcode k. */
  predicate OpFollowed(t: seq<Info>, code: seq<Op>, sa: seq<Option<int>>, k: nat)
    requires |sa| == |code| && k < |code| && sa[k].Some?
  {
    var op := code[k];
    var c' := sa[k].value + Delta(t, op);
    (op.JumpDisp() != 0 ==> 0 <= k + 1 + op.JumpDisp() < |code| && sa[k + 1 + op.JumpDisp()] == Some(c'))
    && (Continues(t, op) ==> k + 1 < |code| && sa[k + 1] == Some(c'))
  }

  predicate OpTraced(t: seq<Info>, code: seq<Op>, tr: Trace, k: nat)
    requires |tr.sa| == |code| && k < |code| && tr.sa[k].Some?
  {
    OpCovered(t, code[k], tr, tr.sa[k].value) && OpFollowed(t, code, tr.sa, k)
  }

  /** The effect computed from the trace. */
  function Computed(tr: Trace): SType {
    match tr.exitSA
    case None => MakeSType(-tr.maxDepth, -1)
    case Some(e) => MakeSType(-tr.maxDepth, -tr.maxDepth + e)
  }

  predicate Traced(t: seq<Info>, code: seq<Op>, tr: Trace) {
    code != [] && |tr.sa| == |code| && tr.sa[0] == Some(0)
    && tr.maxDepth <= 0 && tr.mds >= 0 && tr.mrs >= 0
    && forall k :: 0 <= k < |code| && tr.sa[k].Some? ==> OpTraced(t, code, tr, k)
  }

  /** Word.MaxDataStack and MaxReturnStack of words that are not interpreted. */
  function DefaultInfo(e: SType): Info {
    Info(e,
         if !e.IsKnown() then -1 else if e.NoExit() then 0 else if e.dout - e.din < 0 then e.dout - e.din else 0,
         0)
  }

  /** The same with Max in place of Min: what the two properties are meant to be. */
  function RepairedInfo(e: SType): Info {
    DefaultInfo(e).(maxDataStack := if !e.IsKnown() then -1 else if e.NoExit() then 0 else if e.dout - e.din > 0 then e.dout - e.din else 0)
  }

  /** Soundness is proved for either version, and for data words that are charged a slot of the return stack as
      well as for those that are not. */
  predicate LeafInfo(i: Info, e: SType) {
    0 <= i.maxReturnStack <= 1 && (i.(maxReturnStack := 0) == DefaultInfo(e) || i.(maxReturnStack := 0) == RepairedInfo(e))
  }

  /** Word w has been analysed with trace tr, against the finished analyses of the words it calls. */
  predicate WordAnalysed(p: Program, t: seq<Info>, w: nat, tr: Trace)
    requires |t| == |p| && w < |p|
  {
    match p[w].body
    case Interp(nl, code) =>
      Traced(t, code, tr)
      && t[w].maxDataStack == tr.mds && t[w].maxReturnStack == 1 + nl + tr.mrs
      && t[w].effect.IsKnown() && Computed(tr).IsSubOf(t[w].effect)
    case Data(_) => LeafInfo(t[w], SType(0, 1))
    case Native => LeafInfo(t[w], p[w].declared)
  }

  /** Every word of `done` is analysed, and reached calls stay inside `done`. */
  ghost predicate Analysed(p: Program, t: seq<Info>, trs: seq<Trace>, done: set<nat>) {
    |t| == |p| == |trs| &&
    forall w :: w in done ==>
      w < |p| && WordAnalysed(p, t, w, trs[w])
      && (p[w].body.Interp? ==>
            forall k :: 0 <= k < |p[w].body.code| && trs[w].sa[k].Some? && p[w].body.code[k].Call? ==>
              p[w].body.code[k].w in done)
  }

  /** C code honours an effect: from a deep enough stack it succeeds, replaces the top din elements by dout
      new ones and leaves the rest alone; a word that never exits stops the machine. */
  ghost predicate Honours<E(!new)>(prim: Prim<E>, ccode: string, e: SType) {
    e.IsKnown() && forall stack: seq<Cell>, env: E :: |stack| >= e.din ==>
      match prim(ccode, stack, env)
      case PrimWrong => false
      case PrimHalt(_) => true
      case PrimOk(stack', _, _) =>
        !e.NoExit() && |stack'| == |stack| - e.din + e.dout
        && stack'[..|stack| - e.din] == stack[..|stack| - e.din]
  }

  ghost predicate AllHonour<E(!new)>(p: Program, t: seq<Info>, done: set<nat>, prim: Prim<E>) {
    |t| == |p| && forall w :: w in done && w < |p| && p[w].ccode.Some? ==>
      t[w].effect.IsKnown() ==> Honours(prim, p[w].ccode.value, t[w].effect)
  }

  /** Called words that take no code of their own in the interpreter's return stack: C words and data words. */
  predicate IsLeaf(p: Program, w: nat) {
    w < |p| && (p[w].ccode.Some? || p[w].body.Data?)
  }

  /** No interpreted word lacks an implementation, and no leaf pushes more than its MaxDataStack + d. */
  predicate SlackOk(p: Program, t: seq<Info>, done: set<nat>, d: nat) {
    |t| == |p| && forall w :: w in done && IsLeaf(p, w) ==>
      t[w].effect.IsKnown() && !t[w].effect.NoExit() ==> t[w].effect.dout - t[w].effect.din <= t[w].maxDataStack + d
  }

  /** Words without C code are interpreted or data words: the generator refuses the others. */
  predicate Implemented(p: Program, done: set<nat>) {
    forall w :: w in done && w < |p| && p[w].body.Native? ==> p[w].ccode.Some?
  }

  /** The frame that a data word takes is in its MaxReturnStack. */
  predicate DataCharged(p: Program, t: seq<Info>, done: set<nat>) {
    forall w :: w in done && w < |p| && w < |t| && p[w].ccode.None? && p[w].body.Data? ==> t[w].maxReturnStack >= 1
  }

  // ----- the invariant of every run -----

  /** Bounds that hold throughout a run: the part of the data stack nobody touches, the greatest depth, the
      return-stack slots. */
  datatype Limits = Limits(floor: int, top: int, ret: int)

  /** One active frame: opcode `off` of `word` is about to run, or is a call in progress, with `height` elements
      on the data stack, of which Top(heights) were there when the frame was entered. */
  ghost predicate FrameGood(p: Program, t: seq<Info>, trs: seq<Trace>, done: set<nat>, lim: Limits,
                            frames: seq<Frame>, heights: seq<int>, word: nat, off: nat, height: int)
    requires Analysed(p, t, trs, done)
  {
    |heights| == |frames| > 0 && word in done && IsCode(p, word)
    && off < |CodeOf(p, word)| && |trs[word].sa| == |CodeOf(p, word)|
    && trs[word].sa[off] == Some(height - Top(heights))
    && |Top(frames).locals| == NumLocals(p, word)
    && lim.floor <= Top(heights) + trs[word].maxDepth
    && Top(heights) + t[word].maxDataStack <= lim.top
    && FrameSlots(Pop(frames)) + t[word].maxReturnStack <= lim.ret
  }

  /** All active frames, the innermost last. Each but the outermost was entered by the call that its caller
      is still executing; `outer` is the outermost word and the depth at which it was entered. */
  ghost predicate Good(p: Program, t: seq<Info>, trs: seq<Trace>, done: set<nat>, lim: Limits,
                       frames: seq<Frame>, heights: seq<int>, word: nat, off: nat, height: int, outer: (nat, int))
    requires Analysed(p, t, trs, done)
    decreases |frames|
  {
    FrameGood(p, t, trs, done, lim, frames, heights, word, off, height)
    && (match Top(frames).caller
        case None => |frames| == 1 && outer == (word, Top(heights))
        case Some((w, k)) =>
          |frames| > 1 && k >= 1 && k - 1 < |CodeOf(p, w)| && CodeOf(p, w)[k - 1] == Call(word)
          && Good(p, t, trs, done, lim, Pop(frames), Pop(heights), w, k - 1, Top(heights), outer))
  }

  /** The same frame at another of its opcodes. */
  lemma MoveTo(p: Program, t: seq<Info>, trs: seq<Trace>, done: set<nat>, lim: Limits,
               frames: seq<Frame>, heights: seq<int>, word: nat, off: nat, height: int, outer: (nat, int), off': nat, height': int)
    requires Analysed(p, t, trs, done) && Good(p, t, trs, done, lim, frames, heights, word, off, height, outer)
    requires off' < |CodeOf(p, word)| && |trs[word].sa| == |CodeOf(p, word)|
    requires trs[word].sa[off].Some? && trs[word].sa[off'] == Some(trs[word].sa[off].value + height' - height)
    ensures Good(p, t, trs, done, lim, frames, heights, word, off', height', outer)
  {
    hide Analysed;
  }

  /** Local numbers come from the builder's dictionary. */
  predicate LocalsInRange(p: Program, done: set<nat>) {
    forall w, k :: w in done && 0 <= k < |CodeOf(p, w)| ==>
      var op := CodeOf(p, w)[k];
      (op.GetLocal? || op.PutLocal? ==> op.num < NumLocals(p, w))
  }

  /** Everything assumed of the program and its C code. */
  ghost predicate Sound<E(!new)>(p: Program, t: seq<Info>, trs: seq<Trace>, done: set<nat>, prim: Prim<E>, d: nat) {
    Analysed(p, t, trs, done) && AllHonour(p, t, done, prim) && SlackOk(p, t, done, d)
    && Implemented(p, done) && LocalsInRange(p, done)
  }

  ghost predicate Inv<E(!new)>(p: Program, t: seq<Info>, trs: seq<Trace>, done: set<nat>, lim: Limits, d: nat,
                               low: seq<Cell>, outer: (nat, int), c: Cpu<E>, heights: seq<int>)
    requires Analysed(p, t, trs, done)
  {
    Good(p, t, trs, done, lim, c.frames, heights, c.word, c.off, |c.stack|, outer)
    && lim.floor == |low| <= |c.stack| <= lim.top + d && c.stack[..|low|] == low
  }

  /** The untouched part survives any change above it. */
  lemma LowKept(stack: seq<Cell>, stack': seq<Cell>, low: seq<Cell>, keep: nat)
    requires |low| <= keep <= |stack| && keep <= |stack'| && stack[..keep] == stack'[..keep]
    requires stack[..|low|] == low
    ensures stack'[..|low|] == low
  {
    assert stack[..|low|] == stack[..keep][..|low|];
    assert stack'[..|low|] == stack'[..keep][..|low|];
  }

  lemma StepSimple<E(!new)>(p: Program, t: seq<Info>, trs: seq<Trace>, done: set<nat>, lim: Limits, d: nat,
                            prim: Prim<E>, stale: nat -> Cell, low: seq<Cell>, outer: (nat, int), c: Cpu<E>, heights: seq<int>)
    requires Sound(p, t, trs, done, prim, d) && Inv(p, t, trs, done, lim, d, low, outer, c, heights)
    requires var op := CodeOf(p, c.word)[c.off]; op.Const? || op.ConstExpr? || op.GetLocal? || op.PutLocal?
    ensures var r := Step(p, prim, stale, c); r.Next? && Inv(p, t, trs, done, lim, d, low, outer, r.s, heights)
  {
    hide AllHonour, SlackOk, Implemented, Analysed;
    AtTop(p, t, trs, done, lim, c.frames, heights, c.word, c.off, |c.stack|, outer);
    assert CodeOf(p, c.word)[c.off] in CodeOf(p, c.word);
    var r := Step(p, prim, stale, c);
    var keep := if |r.s.stack| < |c.stack| then |r.s.stack| else |c.stack|;
    LowKept(c.stack, r.s.stack, low, keep);
    MoveTo(p, t, trs, done, lim, c.frames, heights, c.word, c.off, |c.stack|, outer, c.off + 1, |r.s.stack|);
    if CodeOf(p, c.word)[c.off].PutLocal? {
      SameShape(p, t, trs, done, lim, c.frames, r.s.frames, heights, c.word, c.off + 1, |r.s.stack|, outer);
    }
  }

  /** The opcode about to run is traced, and the depth it reaches stays above the floor. */
  lemma AtTop(p: Program, t: seq<Info>, trs: seq<Trace>, done: set<nat>, lim: Limits,
              frames: seq<Frame>, heights: seq<int>, word: nat, off: nat, height: int, outer: (nat, int))
    requires Analysed(p, t, trs, done) && Good(p, t, trs, done, lim, frames, heights, word, off, height, outer)
    ensures |trs[word].sa| == |CodeOf(p, word)| && trs[word].sa[off].Some? && OpTraced(t, CodeOf(p, word), trs[word], off)
    ensures CodeOf(p, word)[off].Call? ==> CodeOf(p, word)[off].w in done
    ensures t[word].maxReturnStack == 1 + NumLocals(p, word) + trs[word].mrs && t[word].maxDataStack == trs[word].mds
    ensures lim.floor <= height && lim.floor <= height + Delta(t, CodeOf(p, word)[off])
  {
    assert WordAnalysed(p, t, word, trs[word]);
  }

  /** The contents of the locals do not matter. */
  lemma SameShape(p: Program, t: seq<Info>, trs: seq<Trace>, done: set<nat>, lim: Limits,
                  frames: seq<Frame>, frames': seq<Frame>, heights: seq<int>, word: nat, off: nat, height: int, outer: (nat, int))
    requires Analysed(p, t, trs, done) && Good(p, t, trs, done, lim, frames, heights, word, off, height, outer)
    requires frames' != [] && Pop(frames') == Pop(frames)
    requires Top(frames').caller == Top(frames).caller && |Top(frames').locals| == |Top(frames).locals|
    ensures Good(p, t, trs, done, lim, frames', heights, word, off, height, outer)
  {
    hide Analysed;
    assert |frames'| == |Pop(frames')| + 1 && |frames| == |Pop(frames)| + 1;
  }

  lemma StepJump<E(!new)>(p: Program, t: seq<Info>, trs: seq<Trace>, done: set<nat>, lim: Limits, d: nat,
                          prim: Prim<E>, stale: nat -> Cell, low: seq<Cell>, outer: (nat, int), c: Cpu<E>, heights: seq<int>)
    requires Sound(p, t, trs, done, prim, d) && Inv(p, t, trs, done, lim, d, low, outer, c, heights)
    requires CodeOf(p, c.word)[c.off].Jump?
    ensures var r := Step(p, prim, stale, c); r.Next? && Inv(p, t, trs, done, lim, d, low, outer, r.s, heights)
  {
    hide AllHonour, SlackOk, Implemented, Analysed, LocalsInRange;
    AtTop(p, t, trs, done, lim, c.frames, heights, c.word, c.off, |c.stack|, outer);
    var r := Step(p, prim, stale, c);
    LowKept(c.stack, r.s.stack, low, |r.s.stack|);
    MoveTo(p, t, trs, done, lim, c.frames, heights, c.word, c.off, |c.stack|, outer, r.s.off, |r.s.stack|);
  }

  /** The machine after a leaf call: the caller's frame, one opcode further. */
  lemma AfterLeaf<E(!new)>(p: Program, t: seq<Info>, trs: seq<Trace>, done: set<nat>, lim: Limits, d: nat,
                           prim: Prim<E>, low: seq<Cell>, outer: (nat, int), c: Cpu<E>, heights: seq<int>,
                           stack: seq<Cell>, env: E)
    requires Sound(p, t, trs, done, prim, d) && Inv(p, t, trs, done, lim, d, low, outer, c, heights)
    requires CodeOf(p, c.word)[c.off].Call?
    requires var w := CodeOf(p, c.word)[c.off].w;
             IsLeaf(p, w) && w < |t| && t[w].effect.IsKnown() && !t[w].effect.NoExit()
             && t[w].effect.din <= |c.stack|
             && |stack| == |c.stack| - t[w].effect.din + t[w].effect.dout
             && stack[..|c.stack| - t[w].effect.din] == c.stack[..|c.stack| - t[w].effect.din]
    ensures Inv(p, t, trs, done, lim, d, low, outer, c.(off := c.off + 1, stack := stack, env := env), heights)
  {
    hide AllHonour, Implemented, Analysed, LocalsInRange;
    AtTop(p, t, trs, done, lim, c.frames, heights, c.word, c.off, |c.stack|, outer);
    var w := CodeOf(p, c.word)[c.off].w;
    CallAboveFloor(p, t, trs, done, lim, c.frames, heights, c.word, c.off, |c.stack|, outer);
    LowKept(c.stack, stack, low, |c.stack| - t[w].effect.din);
    MoveTo(p, t, trs, done, lim, c.frames, heights, c.word, c.off, |c.stack|, outer, c.off + 1, |stack|);
  }

  /** The arguments of a call stand above the floor; the callee's peak and frames fit the limits. */
  lemma CallAboveFloor(p: Program, t: seq<Info>, trs: seq<Trace>, done: set<nat>, lim: Limits,
                       frames: seq<Frame>, heights: seq<int>, word: nat, off: nat, height: int, outer: (nat, int))
    requires Analysed(p, t, trs, done) && Good(p, t, trs, done, lim, frames, heights, word, off, height, outer)
    requires CodeOf(p, word)[off].Call?
    ensures var w := CodeOf(p, word)[off].w;
            && w in done && w < |p| && t[w].effect.IsKnown()
            && lim.floor <= height - t[w].effect.din
            && height + t[w].maxDataStack <= lim.top
            && FrameSlots(frames) + t[w].maxReturnStack <= lim.ret
            && FrameSlots(frames) <= lim.ret
  {
    AtTop(p, t, trs, done, lim, frames, heights, word, off, height, outer);
    TracedMrs(p, t, trs, done, word);
  }

  lemma TracedMrs(p: Program, t: seq<Info>, trs: seq<Trace>, done: set<nat>, w: nat)
    requires Analysed(p, t, trs, done) && w in done && IsCode(p, w)
    ensures Traced(t, CodeOf(p, w), trs[w]) && WordAnalysed(p, t, w, trs[w])
  {
    assert WordAnalysed(p, t, w, trs[w]);
  }

  lemma StepLeaf<E(!new)>(p: Program, t: seq<Info>, trs: seq<Trace>, done: set<nat>, lim: Limits, d: nat,
                          prim: Prim<E>, stale: nat -> Cell, low: seq<Cell>, outer: (nat, int), c: Cpu<E>, heights: seq<int>)
    requires Sound(p, t, trs, done, prim, d) && Inv(p, t, trs, done, lim, d, low, outer, c, heights)
    requires CodeOf(p, c.word)[c.off].Call? && IsLeaf(p, CodeOf(p, c.word)[c.off].w)
    ensures var r := Step(p, prim, stale, c);
            r.Halt? || ((r.Next? || r.Yield?) && Inv(p, t, trs, done, lim, d, low, outer, r.s, heights))
  {
    hide SlackOk, Implemented, Analysed, LocalsInRange;
    CallAboveFloor(p, t, trs, done, lim, c.frames, heights, c.word, c.off, |c.stack|, outer);
    var w := CodeOf(p, c.word)[c.off].w;
    if p[w].ccode.Some? {
      var stack, env := c.stack, c.env;
      assert Honours(prim, p[w].ccode.value, t[w].effect);
      var r := prim(p[w].ccode.value, stack, env);
      if r.PrimOk? {
        AfterLeaf(p, t, trs, done, lim, d, prim, low, outer, c, heights, r.stack, r.env);
      }
    } else {
      DataEffect(p, t, trs, done, w);
      AfterLeaf(p, t, trs, done, lim, d, prim, low, outer, c, heights, c.stack + [ToU32(p[w].body.addr)], c.env);
    }
  }

  lemma DataEffect(p: Program, t: seq<Info>, trs: seq<Trace>, done: set<nat>, w: nat)
    requires Analysed(p, t, trs, done) && w in done && w < |p| && p[w].body.Data?
    ensures t[w].effect == SType(0, 1)
  {
    assert WordAnalysed(p, t, w, trs[w]);
  }

  /** A call pushes a frame for which the invariant holds at the first opcode. */
  lemma GoodPush(p: Program, t: seq<Info>, trs: seq<Trace>, done: set<nat>, lim: Limits,
                 frames: seq<Frame>, heights: seq<int>, word: nat, off: nat, height: int, outer: (nat, int), f: Frame)
    requires Analysed(p, t, trs, done) && Good(p, t, trs, done, lim, frames, heights, word, off, height, outer)
    requires CodeOf(p, word)[off].Call? && IsCode(p, CodeOf(p, word)[off].w)
    requires f.caller == Some((word, off + 1)) && |f.locals| == NumLocals(p, CodeOf(p, word)[off].w)
    ensures Good(p, t, trs, done, lim, frames + [f], heights + [height], CodeOf(p, word)[off].w, 0, height, outer)
  {
    hide Analysed, FrameSlots;
    CallAboveFloor(p, t, trs, done, lim, frames, heights, word, off, height, outer);
    var w := CodeOf(p, word)[off].w;
    FrameEntered(p, t, trs, done, lim, frames, heights, w, height, f);
    hide FrameGood;
    assert Pop(frames + [f]) == frames && Pop(heights + [height]) == heights;
    assert Good(p, t, trs, done, lim, Pop(frames + [f]), Pop(heights + [height]), word, off, height, outer);
  }

  lemma FrameEntered(p: Program, t: seq<Info>, trs: seq<Trace>, done: set<nat>, lim: Limits,
                     frames: seq<Frame>, heights: seq<int>, w: nat, height: int, f: Frame)
    requires Analysed(p, t, trs, done) && |frames| == |heights| && w in done && IsCode(p, w)
    requires |f.locals| == NumLocals(p, w)
    requires lim.floor <= height - t[w].effect.din && height + t[w].maxDataStack <= lim.top
    requires FrameSlots(frames) + t[w].maxReturnStack <= lim.ret
    ensures FrameGood(p, t, trs, done, lim, frames + [f], heights + [height], w, 0, height)
  {
    EntryTraced(p, t, trs, done, w);
    hide Analysed, FrameSlots;
    assert Pop(frames + [f]) == frames;
  }

  lemma EntryTraced(p: Program, t: seq<Info>, trs: seq<Trace>, done: set<nat>, w: nat)
    requires Analysed(p, t, trs, done) && w in done && IsCode(p, w)
    ensures CodeOf(p, w) != [] && |trs[w].sa| == |CodeOf(p, w)| && trs[w].sa[0] == Some(0)
    ensures -trs[w].maxDepth <= t[w].effect.din
  {
    TracedMrs(p, t, trs, done, w);
  }

  lemma StepEnter<E(!new)>(p: Program, t: seq<Info>, trs: seq<Trace>, done: set<nat>, lim: Limits, d: nat,
                           prim: Prim<E>, stale: nat -> Cell, low: seq<Cell>, outer: (nat, int), c: Cpu<E>, heights: seq<int>)
    requires Sound(p, t, trs, done, prim, d) && Inv(p, t, trs, done, lim, d, low, outer, c, heights)
    requires CodeOf(p, c.word)[c.off].Call? && !IsLeaf(p, CodeOf(p, c.word)[c.off].w)
    ensures var r := Step(p, prim, stale, c);
            r.Next? && Inv(p, t, trs, done, lim, d, low, outer, r.s, heights + [|c.stack|])
  {
    hide SlackOk, Analysed, LocalsInRange, AllHonour;
    CallAboveFloor(p, t, trs, done, lim, c.frames, heights, c.word, c.off, |c.stack|, outer);
    var w := CodeOf(p, c.word)[c.off].w;
    assert IsCode(p, w);
    var f := Frame(Some((c.word, c.off + 1)), NewLocals(stale, NumLocals(p, w)));
    GoodPush(p, t, trs, done, lim, c.frames, heights, c.word, c.off, |c.stack|, outer, f);
    hide Good;
  }

  /** A reached ret means the word does exit, at the depth its effect tells. */
  lemma RetEffect(p: Program, t: seq<Info>, trs: seq<Trace>, done: set<nat>, w: nat, k: nat)
    requires Analysed(p, t, trs, done) && w in done && IsCode(p, w) && k < |CodeOf(p, w)| && CodeOf(p, w)[k].Ret?
    requires |trs[w].sa| == |CodeOf(p, w)| && trs[w].sa[k].Some?
    ensures w < |t| && t[w].effect.IsKnown() && !t[w].effect.NoExit()
    ensures trs[w].sa[k].value == t[w].effect.dout - t[w].effect.din
    ensures -trs[w].maxDepth <= t[w].effect.din
  {
    TracedMrs(p, t, trs, done, w);
    assert OpTraced(t, CodeOf(p, w), trs[w], k);
  }

  /** A return to a caller: the invariant holds behind the call. */
  lemma GoodPop(p: Program, t: seq<Info>, trs: seq<Trace>, done: set<nat>, lim: Limits,
                frames: seq<Frame>, heights: seq<int>, word: nat, off: nat, height: int, outer: (nat, int))
    requires Analysed(p, t, trs, done) && Good(p, t, trs, done, lim, frames, heights, word, off, height, outer)
    requires CodeOf(p, word)[off].Ret? && Top(frames).caller.Some?
    ensures var (w, k) := Top(frames).caller.value;
            Good(p, t, trs, done, lim, Pop(frames), Pop(heights), w, k, height, outer)
  {
    hide Analysed;
    var (w, k) := Top(frames).caller.value;
    var h := Top(heights);
    assert Good(p, t, trs, done, lim, Pop(frames), Pop(heights), w, k - 1, h, outer);
    RetEffect(p, t, trs, done, word, off);
    BehindCall(p, t, trs, done, lim, Pop(frames), Pop(heights), w, k - 1, h, outer);
    MoveTo(p, t, trs, done, lim, Pop(frames), Pop(heights), w, k - 1, h, outer, k, height);
  }

  /** The opcode behind a call to a word that exits. */
  lemma BehindCall(p: Program, t: seq<Info>, trs: seq<Trace>, done: set<nat>, lim: Limits,
                   frames: seq<Frame>, heights: seq<int>, word: nat, off: nat, height: int, outer: (nat, int))
    requires Analysed(p, t, trs, done) && Good(p, t, trs, done, lim, frames, heights, word, off, height, outer)
    requires CodeOf(p, word)[off].Call?
    requires var w := CodeOf(p, word)[off].w; w < |t| && !t[w].effect.NoExit()
    ensures var e := t[CodeOf(p, word)[off].w].effect;
            off + 1 < |CodeOf(p, word)| == |trs[word].sa| && trs[word].sa[off].Some?
            && trs[word].sa[off + 1] == Some(trs[word].sa[off].value + e.dout - e.din)
  {
    hide Analysed, Good;
    AtTop(p, t, trs, done, lim, frames, heights, word, off, height, outer);
  }

  lemma StepRet<E(!new)>(p: Program, t: seq<Info>, trs: seq<Trace>, done: set<nat>, lim: Limits, d: nat,
                         prim: Prim<E>, stale: nat -> Cell, low: seq<Cell>, outer: (nat, int), c: Cpu<E>, heights: seq<int>)
    requires Sound(p, t, trs, done, prim, d) && Inv(p, t, trs, done, lim, d, low, outer, c, heights)
    requires CodeOf(p, c.word)[c.off].Ret?
    ensures outer.0 < |t|
    ensures var r := Step(p, prim, stale, c);
            if r.Exit? then
              r.s.stack == c.stack && !t[outer.0].effect.NoExit()
              && |c.stack| == outer.1 - t[outer.0].effect.din + t[outer.0].effect.dout
            else r.Next? && heights != [] && Inv(p, t, trs, done, lim, d, low, outer, r.s, Pop(heights))
  {
    hide SlackOk, Analysed, LocalsInRange, AllHonour, Implemented, OpTraced;
    OuterDone(p, t, trs, done, lim, c.frames, heights, c.word, c.off, |c.stack|, outer);
    AtTop(p, t, trs, done, lim, c.frames, heights, c.word, c.off, |c.stack|, outer);
    if Top(c.frames).caller.None? {
      RetEffect(p, t, trs, done, c.word, c.off);
    } else {
      GoodPop(p, t, trs, done, lim, c.frames, heights, c.word, c.off, |c.stack|, outer);
    }
  }

  lemma {:induction false} OuterDone(p: Program, t: seq<Info>, trs: seq<Trace>, done: set<nat>, lim: Limits,
                  frames: seq<Frame>, heights: seq<int>, word: nat, off: nat, height: int, outer: (nat, int))
    requires Analysed(p, t, trs, done) && Good(p, t, trs, done, lim, frames, heights, word, off, height, outer)
    ensures outer.0 < |t|
    decreases |frames|
  {
    hide Analysed;
    match Top(frames).caller
    case None => InTable(p, t, trs, done, lim, frames, heights, word, off, height);
    case Some((w, k)) =>
      OuterDone(p, t, trs, done, lim, Pop(frames), Pop(heights), w, k - 1, Top(heights), outer);
  }

  lemma InTable(p: Program, t: seq<Info>, trs: seq<Trace>, done: set<nat>, lim: Limits,
                frames: seq<Frame>, heights: seq<int>, word: nat, off: nat, height: int)
    requires Analysed(p, t, trs, done) && FrameGood(p, t, trs, done, lim, frames, heights, word, off, height)
    ensures word < |t|
  {
  }

  /** The entry heights after a step: calls push one, returns pop one. */
  function HeightsAfter<E>(p: Program, c: Cpu<E>, heights: seq<int>): seq<int> {
    if c.off < |CodeOf(p, c.word)| then
      match CodeOf(p, c.word)[c.off]
      case Ret => if heights == [] then [] else Pop(heights)
      case Call(w) => if IsLeaf(p, w) then heights else heights + [|c.stack|]
      case _ => heights
    else heights
  }

  /** One opcode of an analysed program, from a state in which the invariant holds. */
  lemma StepInv<E(!new)>(p: Program, t: seq<Info>, trs: seq<Trace>, done: set<nat>, lim: Limits, d: nat,
                         prim: Prim<E>, stale: nat -> Cell, low: seq<Cell>, outer: (nat, int), c: Cpu<E>, heights: seq<int>)
    requires Sound(p, t, trs, done, prim, d) && Inv(p, t, trs, done, lim, d, low, outer, c, heights)
    ensures outer.0 < |t|
    ensures match Step(p, prim, stale, c)
            case Wrong => false
            case Halt(_) => true
            case Next(c') => Inv(p, t, trs, done, lim, d, low, outer, c', HeightsAfter(p, c, heights))
            case Yield(c') => Inv(p, t, trs, done, lim, d, low, outer, c', HeightsAfter(p, c, heights))
            case Exit(c') =>
              c'.stack == c.stack && !t[outer.0].effect.NoExit()
              && |c.stack| == outer.1 - t[outer.0].effect.din + t[outer.0].effect.dout
  {
    hide SlackOk, Analysed, LocalsInRange, AllHonour, Implemented, Step;
    OuterDone(p, t, trs, done, lim, c.frames, heights, c.word, c.off, |c.stack|, outer);
    match CodeOf(p, c.word)[c.off]
    case Jump(_, _) => StepJump(p, t, trs, done, lim, d, prim, stale, low, outer, c, heights);
    case Ret => StepRet(p, t, trs, done, lim, d, prim, stale, low, outer, c, heights);
    case Call(w) =>
      if IsLeaf(p, w) {
        StepLeaf(p, t, trs, done, lim, d, prim, stale, low, outer, c, heights);
      } else {
        StepEnter(p, t, trs, done, lim, d, prim, stale, low, outer, c, heights);
      }
    case _ => StepSimple(p, t, trs, done, lim, d, prim, stale, low, outer, c, heights);
  }

  // ----- whole runs -----

  /** What the entry point's analysis promises to a caller with `depth` elements on the stack. */
  function LimitsOf(info: Info, depth: nat): Limits {
    Limits(depth - info.effect.din, depth + info.maxDataStack, info.maxReturnStack)
  }

  function Untouched(info: Info, stack: seq<Cell>): (low: seq<Cell>)
    requires 0 <= info.effect.din <= |stack|
  {
    stack[..|stack| - info.effect.din]
  }

  lemma StartInv<E(!new)>(p: Program, t: seq<Info>, trs: seq<Trace>, done: set<nat>, prim: Prim<E>, d: nat,
                          stale: nat -> Cell, w: nat, stack: seq<Cell>, env: E)
    requires Sound(p, t, trs, done, prim, d) && w in done && IsCode(p, w) && w < |t|
    requires 0 <= t[w].effect.din <= |stack|
    ensures Inv(p, t, trs, done, LimitsOf(t[w], |stack|), d, Untouched(t[w], stack), (w, |stack|),
                Start(p, stale, w, stack, env), [|stack|])
  {
    hide AllHonour, SlackOk, Implemented, LocalsInRange;
    TracedMrs(p, t, trs, done, w);
    EntryTraced(p, t, trs, done, w);
    var f := Frame(None, NewLocals(stale, NumLocals(p, w)));
    FrameEntered(p, t, trs, done, LimitsOf(t[w], |stack|), [], [], w, |stack|, f);
    assert [] + [f] == [f] && [] + [|stack|] == [|stack|];
  }

  lemma InvBounds<E(!new)>(p: Program, t: seq<Info>, trs: seq<Trace>, done: set<nat>, lim: Limits, d: nat,
                           low: seq<Cell>, outer: (nat, int), c: Cpu<E>, heights: seq<int>)
    requires Analysed(p, t, trs, done) && Inv(p, t, trs, done, lim, d, low, outer, c, heights)
    ensures |c.stack| <= lim.top + d && FrameSlots(c.frames) <= lim.ret
    ensures DataCharged(p, t, done) && AtDataCall(p, c) ==> FrameSlots(c.frames) + 1 <= lim.ret
  {
    hide Analysed;
    AtTop(p, t, trs, done, lim, c.frames, heights, c.word, c.off, |c.stack|, outer);
    TracedMrs(p, t, trs, done, c.word);
    if AtDataCall(p, c) {
      CallAboveFloor(p, t, trs, done, lim, c.frames, heights, c.word, c.off, |c.stack|, outer);
    }
  }

  /** Slots of the return stack the reported maximum may be short of: as coded, a data word takes a frame it is
      not charged for. */
  ghost function Spare(p: Program, t: seq<Info>, done: set<nat>): nat {
    if DataCharged(p, t, done) then 0 else 1
  }

  lemma {:induction false} InvSafe<E(!new)>(p: Program, t: seq<Info>, trs: seq<Trace>, done: set<nat>, lim: Limits, d: nat,
                           prim: Prim<E>, low: seq<Cell>, outer: (nat, int), c: Cpu<E>, heights: seq<int>,
                           dataSize: nat, retSize: nat, n: nat)
    requires Sound(p, t, trs, done, prim, d) && Inv(p, t, trs, done, lim, d, low, outer, c, heights)
    requires lim.top + d <= dataSize && lim.ret + Spare(p, t, done) <= retSize
    ensures Safe(p, prim, c, dataSize, retSize, n)
    decreases n
  {
    hide Analysed, SlackOk, LocalsInRange, AllHonour, Implemented, DataCharged, Good, Step, FrameSlots;
    InvBounds(p, t, trs, done, lim, d, low, outer, c, heights);
    if n > 0 {
      forall stale: nat -> Cell
        ensures SafeAfter(p, prim, Step(p, prim, stale, c), dataSize, retSize, n - 1)
      {
        StepInv(p, t, trs, done, lim, d, prim, stale, low, outer, c, heights);
        var next := HeightsAfter(p, c, heights);
        match Step(p, prim, stale, c)
        case Next(c') => InvSafe(p, t, trs, done, lim, d, prim, low, outer, c', next, dataSize, retSize, n - 1);
        case Yield(c') =>
          forall env: E
            ensures Safe(p, prim, c'.(env := env), dataSize, retSize, n - 1)
          {
            InvSafe(p, t, trs, done, lim, d, prim, low, outer, c'.(env := env), next, dataSize, retSize, n - 1);
          }
        case _ =>
      }
    }
  }

  /** A run of an analysed word: it never goes wrong, never touches what lies below its arguments, never
      exceeds the reported maxima by more than the slack, and exits (if it is not a no-exit word) with its
      results in place of its arguments. */
  ghost predicate Promised<E(!new)>(info: Info, d: nat, stack: seq<Cell>, r: Result<Cpu<E>>)
    requires 0 <= info.effect.din <= |stack|
  {
    var keep := |stack| - info.effect.din;
    match r
    case Wrong => false
    case Yield(_) => false
    case Halt(_) => true
    case Next(c) =>
      keep <= |c.stack| <= |stack| + info.maxDataStack + d && c.stack[..keep] == stack[..keep]
      && FrameSlots(c.frames) <= info.maxReturnStack
    case Exit(c) =>
      !info.effect.NoExit() && |c.stack| == keep + info.effect.dout && c.stack[..keep] == stack[..keep]
  }

  lemma {:induction false} RunInv<E(!new)>(p: Program, t: seq<Info>, trs: seq<Trace>, done: set<nat>, d: nat,
                           prim: Prim<E>, w: nat, stack: seq<Cell>, choices: seq<Choice<E>>, c: Cpu<E>, heights: seq<int>)
    requires Sound(p, t, trs, done, prim, d) && w < |t| && 0 <= t[w].effect.din <= |stack|
    requires Inv(p, t, trs, done, LimitsOf(t[w], |stack|), d, Untouched(t[w], stack), (w, |stack|), c, heights)
    ensures Promised(t[w], d, stack, Run(p, prim, choices, c))
    decreases |choices|
  {
    hide Analysed, SlackOk, LocalsInRange, AllHonour, Implemented, Good, Step, FrameSlots;
    var lim, low, outer := LimitsOf(t[w], |stack|), Untouched(t[w], stack), (w, |stack|);
    InvBounds(p, t, trs, done, lim, d, low, outer, c, heights);
    if choices != [] {
      StepInv(p, t, trs, done, lim, d, prim, choices[0].stale, low, outer, c, heights);
      var next := HeightsAfter(p, c, heights);
      match Step(p, prim, choices[0].stale, c)
      case Next(c') => RunInv(p, t, trs, done, d, prim, w, stack, choices[1..], c', next);
      case Yield(c') =>
        RunInv(p, t, trs, done, d, prim, w, stack, choices[1..], c'.(env := choices[0].host(c'.env)), next);
      case _ =>
    }
  }

  /** Soundness of the flow analysis, over every run of every length. */
  lemma FlowSound<E(!new)>(p: Program, t: seq<Info>, trs: seq<Trace>, done: set<nat>, d: nat, prim: Prim<E>,
                           stale: nat -> Cell, choices: seq<Choice<E>>, w: nat, stack: seq<Cell>, env: E)
    requires Sound(p, t, trs, done, prim, d) && w in done && IsCode(p, w) && w < |t|
    requires 0 <= t[w].effect.din <= |stack|
    ensures Promised(t[w], d, stack, Run(p, prim, choices, Start(p, stale, w, stack, env)))
  {
    hide Sound, Promised;
    StartInv(p, t, trs, done, prim, d, stale, w, stack, env);
    RunInv(p, t, trs, done, d, prim, w, stack, choices, Start(p, stale, w, stack, env), [|stack|]);
  }

  // ----- no recursion -----

  /** Word w has a reached call to the interpreted word v. */
  ghost predicate Calls(p: Program, trs: seq<Trace>, w: nat, v: nat) {
    w < |trs| && IsCode(p, v) &&
    (exists k :: 0 <= k < |CodeOf(p, w)| && k < |trs[w].sa| && trs[w].sa[k].Some? && CodeOf(p, w)[k] == Call(v))
  }

  ghost predicate IsChain(p: Program, trs: seq<Trace>, chain: seq<nat>) {
    |chain| >= 2 ==> Calls(p, trs, chain[0], chain[1]) && IsChain(p, trs, chain[1..])
  }

  /** Along any chain of calls the reported return-stack use goes down by at least the frames in between; so no
      chain leads back to a word it started from. */
  lemma {:induction false} NoCallCycle(p: Program, t: seq<Info>, trs: seq<Trace>, done: set<nat>, chain: seq<nat>)
    requires Analysed(p, t, trs, done) && |chain| >= 2
    requires forall i :: 0 <= i < |chain| ==> chain[i] in done
    requires IsChain(p, trs, chain)
    ensures t[chain[0]].maxReturnStack >= t[Top(chain)].maxReturnStack + |chain| - 1
    ensures chain[0] != Top(chain)
    decreases |chain|
  {
    hide Analysed, Calls;
    assert chain[0] in done && chain[1] in done;
    OneCall(p, t, trs, done, chain[0], chain[1]);
    if |chain| > 2 {
      NoCallCycle(p, t, trs, done, chain[1..]);
    }
  }

  lemma OneCall(p: Program, t: seq<Info>, trs: seq<Trace>, done: set<nat>, w: nat, v: nat)
    requires Analysed(p, t, trs, done) && w in done && Calls(p, trs, w, v)
    ensures v in done && t[w].maxReturnStack >= t[v].maxReturnStack + 1
  {
    var k :| 0 <= k < |CodeOf(p, w)| && k < |trs[w].sa| && trs[w].sa[k].Some? && CodeOf(p, w)[k] == Call(v);
    assert WordAnalysed(p, t, w, trs[w]);
    assert OpTraced(t, CodeOf(p, w), trs[w], k);
  }
}
