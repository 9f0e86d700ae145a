/**
 The open flags of pipe ends against the descriptors that hold them. The flags
 are not counts, so an end can be marked closed while descriptors of it are
 left; this says exactly when that happens.
 */
module VfsEnds {
  import opened Words
  import opened Ramfs
  import opened RamfsPaths
  import opened Vfs

  datatype PipeEnd = PipeEnd(pipe: nat, write: bool)

  predicate Holds(d: Fd, x: PipeEnd) {
    if x.write then d == PipeWrite(x.pipe) else d == PipeRead(x.pipe)
  }

  predicate OpenFlag(v: Sys, x: PipeEnd)
    requires x.pipe < |v.pipes|
  {
    if x.write then v.pipes[x.pipe].writeOpen else v.pipes[x.pipe].readOpen
  }

  ghost predicate Held(v: Sys, x: PipeEnd) {
    exists t, f :: Holds(FdAt(v, t, f), x)
  }

  // ------------------------------------------------------ what marks an end

  datatype Mark = Unmarked | MarkedOpen | MarkedClosed

  /** A close of a descriptor of x, or a dup2 over one, marks it closed; its making, or a dup of one, marks it open. */
  function MarkOf(v: Sys, e: Event, x: PipeEnd): Mark {
    match e
    case CloseE(t, f) => if Holds(FdAt(v, t, f), x) then MarkedClosed else Unmarked
    case Dup2E(t, f, g) => if FdAt(v, t, f) != NoFd && Holds(FdAt(v, t, g), x) then MarkedClosed else Unmarked
    case DupE(t, f) => if Holds(FdAt(v, t, f), x) && Dup(v, t, f).1 >= 0 then MarkedOpen else Unmarked
    case PipeE(t) => if x.pipe == v.pipeCount && MakePipe(v, t).1 >= 0 then MarkedOpen else Unmarked
    case _ => Unmarked
  }

  function Flag(m: Mark, was: bool): bool {
    if m.Unmarked? then was else m.MarkedOpen?
  }

  lemma FileCallMark(w: World, e: Event, x: PipeEnd)
    requires Sound(w.v) && Enabled(w.v, e) && x.pipe < MAX_PIPES
    requires e.OpenE? || e.WriteE? || e.ReadE? || e.SeekE?
    ensures |Step(w, e).v.pipes| == MAX_PIPES && OpenFlag(Step(w, e).v, x) == OpenFlag(w.v, x)
  {
    hide SoundPipe, PushAll, PopAll, Popped, Splice, Ramfs.Write, Append, InReach, ContentsFit, Piece;
    if e.OpenE? { OpenKeepsPipes(w.v, e.t, e.path, e.flags); hide Open; }
    if e.WriteE? && FdAt(w.v, e.t, e.f).PipeWrite? && FdAt(w.v, e.t, e.f).pipe < MAX_PIPES {
      assert SoundPipe(w.v.pipes[FdAt(w.v, e.t, e.f).pipe]);
    }
    if e.ReadE? && FdAt(w.v, e.t, e.f).PipeRead? && FdAt(w.v, e.t, e.f).pipe < MAX_PIPES {
      assert SoundPipe(w.v.pipes[FdAt(w.v, e.t, e.f).pipe]);
    }
  }

  /** A call changes an end's flag just as it marks it. */
  lemma StepMarks(w: World, e: Event, x: PipeEnd)
    requires Sound(w.v) && Enabled(w.v, e) && x.pipe < MAX_PIPES
    ensures |Step(w, e).v.pipes| == MAX_PIPES
    ensures OpenFlag(Step(w, e).v, x) == Flag(MarkOf(w.v, e, x), OpenFlag(w.v, x))
  {
    if e.OpenE? || e.WriteE? || e.ReadE? || e.SeekE? {
      FileCallMark(w, e, x);
      hide Step, Sound;
    }
    hide SoundPipe, ContentsFit;
  }

  // ------------------------------------------------------------- over any run

  /** The last mark of the run on x. */
  ghost function LastMark(w: World, events: seq<Event>, x: PipeEnd): Mark
    decreases |events|
  {
    if events == [] || !Sound(w.v) || !Enabled(w.v, events[0]) then Unmarked
    else
      var later := LastMark(Step(w, events[0]), events[1..], x);
      if later.Unmarked? then MarkOf(w.v, events[0], x) else later
  }

  lemma {:induction false} RunMarks(w: World, events: seq<Event>, u: World, x: PipeEnd)
    requires Sound(w.v) && Vfs.Run(w, events, u) && x.pipe < MAX_PIPES
    ensures |u.v.pipes| == MAX_PIPES
    ensures OpenFlag(u.v, x) == Flag(LastMark(w, events, x), OpenFlag(w.v, x))
    decreases |events|
  {
    if events != [] {
      StepMarks(w, events[0], x);
      StepKeepsSound(w, events[0]);
      hide Sound, Step, Enabled, MarkOf, OpenFlag;
      RunMarks(Step(w, events[0]), events[1..], u, x);
    }
  }

  /** Descriptors of an end come from its making, or are copies of descriptors of it. */
  lemma UnmarkedStaysFree(w: World, e: Event, x: PipeEnd)
    requires Sound(w.v) && Enabled(w.v, e) && !Held(w.v, x) && MarkOf(w.v, e, x).Unmarked?
    ensures !Held(Step(w, e).v, x)
  {
    forall t, f ensures !Holds(FdAt(Step(w, e).v, t, f), x) {
      assert !Holds(FdAt(w.v, t, f), x);
      if e.DupE? { assert !Holds(FdAt(w.v, e.t, e.f), x); }
      if e.Dup2E? { assert !Holds(FdAt(w.v, e.t, e.f), x); }
      FdAfter(w, e, t, f);
      hide Sound, Step;
    }
  }

  /** Reading, writing and seeking leave what a descriptor is of; opening makes one of a file. */
  lemma FileFdAfter(w: World, e: Event, t: int, f: int)
    requires Sound(w.v) && Enabled(w.v, e) && (e.OpenE? || e.WriteE? || e.ReadE? || e.SeekE?)
    ensures var d, was := FdAt(Step(w, e).v, t, f), FdAt(w.v, t, f);
      d == was || ((d.FileFd? || d.NullFd?) && (was == NoFd || was.FileFd?))
  {
    hide SoundPipe, ContentsFit, WritePipe, ReadPipe, Splice, Resolve, CreatePath, Ramfs.Write, Append, InReach, Piece;
  }

  /** What a call can make of a descriptor: nothing, nothing it is not, a file, or a copy. */
  lemma FdAfter(w: World, e: Event, t: int, f: int)
    requires Sound(w.v) && Enabled(w.v, e)
    ensures var d, was := FdAt(Step(w, e).v, t, f), FdAt(w.v, t, f);
      || d == was || d.NoFd? || d.FileFd? || d.NullFd?
      || (e.DupE? && e.t == t && d == FdAt(w.v, e.t, e.f) && Dup(w.v, e.t, e.f).1 == f)
      || (e.Dup2E? && e.t == t && e.g == f && d == FdAt(w.v, e.t, e.f))
      || (e.PipeE? && MakePipe(w.v, e.t).1 >= 0 && (d == PipeRead(w.v.pipeCount) || d == PipeWrite(w.v.pipeCount)))
  {
    if e.OpenE? || e.WriteE? || e.ReadE? || e.SeekE? { FileFdAfter(w, e, t, f); hide Step, Sound; }
    hide SoundPipe, ContentsFit;
  }

  lemma {:induction false} RunUnmarkedStaysFree(w: World, events: seq<Event>, u: World, x: PipeEnd)
    requires Sound(w.v) && Vfs.Run(w, events, u) && !Held(w.v, x) && LastMark(w, events, x).Unmarked?
    ensures !Held(u.v, x)
    decreases |events|
  {
    if events != [] {
      UnmarkedStaysFree(w, events[0], x);
      StepKeepsSound(w, events[0]);
      hide Sound, Step, Enabled, MarkOf, Held;
      RunUnmarkedStaysFree(Step(w, events[0]), events[1..], u, x);
    }
  }

  /**
   Over any run from a state in which an end has no descriptor: a descriptor of
   it is left while the end is marked closed exactly if one is left and the last
   event that marked the end was a close, or a dup2 over a descriptor of it, and
   not its making or a dup.
   */
  lemma BrokenWhileHeldIff(w: World, events: seq<Event>, u: World, x: PipeEnd)
    requires Sound(w.v) && Vfs.Run(w, events, u) && x.pipe < MAX_PIPES && !Held(w.v, x)
    ensures |u.v.pipes| == MAX_PIPES
    ensures Held(u.v, x) && !OpenFlag(u.v, x) <==> Held(u.v, x) && LastMark(w, events, x).MarkedClosed?
  {
    RunMarks(w, events, u, x);
    if LastMark(w, events, x).Unmarked? { RunUnmarkedStaysFree(w, events, u, x); }
    hide Sound, Held, OpenFlag, LastMark, Vfs.Run;
  }

  // ------------------------------------------------------------- at one call

  /** The end is marked open exactly if there is a descriptor of it. */
  ghost predicate Agrees(v: Sys, x: PipeEnd)
    requires x.pipe < |v.pipes|
  {
    OpenFlag(v, x) <==> Held(v, x)
  }

  /** The call closes descriptor f of table t. */
  predicate Drops(e: Event, t: int, f: int) {
    (e.CloseE? && e.t == t && e.f == f) || (e.Dup2E? && e.t == t && e.g == f)
  }

  lemma HeldAfterMaking(w: World, e: Event, x: PipeEnd)
    requires Sound(w.v) && Enabled(w.v, e) && MarkOf(w.v, e, x).MarkedOpen?
    ensures Held(Step(w, e).v, x)
  {
    hide SoundPipe, ContentsFit;
    if e.DupE? {
      assert Holds(FdAt(Step(w, e).v, e.t, Dup(w.v, e.t, e.f).1), x);
    } else {
      var (u, r, g) := MakePipe(w.v, e.t);
      assert Holds(FdAt(u, e.t, if x.write then g else r), x);
    }
  }

  /** Every descriptor that the call does not drop stays, unless it was free. */
  lemma FdStays(w: World, e: Event, t: int, f: int)
    requires Sound(w.v) && Enabled(w.v, e) && !Drops(e, t, f) && FdAt(w.v, t, f) != NoFd && !FdAt(w.v, t, f).FileFd?
    ensures FdAt(Step(w, e).v, t, f) == FdAt(w.v, t, f)
  {
    if e.OpenE? || e.WriteE? || e.ReadE? || e.SeekE? { FileFdAfter(w, e, t, f); hide Step, Sound; }
    hide SoundPipe, ContentsFit;
  }

  /** After a drop what holds the end held it before, or is a copy of what did. */
  lemma HeldAfterDrop(w: World, e: Event, x: PipeEnd)
    requires Sound(w.v) && Enabled(w.v, e) && MarkOf(w.v, e, x).MarkedClosed?
    ensures Held(Step(w, e).v, x) <==> exists t, f :: Holds(FdAt(w.v, t, f), x) && !Drops(e, t, f)
  {
    if t, f :| Holds(FdAt(w.v, t, f), x) && !Drops(e, t, f) {
      FdStays(w, e, t, f);
      assert Holds(FdAt(Step(w, e).v, t, f), x);
    }
    if Held(Step(w, e).v, x) {
      var t, f :| Holds(FdAt(Step(w, e).v, t, f), x);
      DroppedIsGone(w, e, t, f, x);
    }
    hide Sound, Step;
  }

  lemma DroppedIsGone(w: World, e: Event, t: int, f: int, x: PipeEnd)
    requires Sound(w.v) && Enabled(w.v, e) && MarkOf(w.v, e, x).MarkedClosed? && Holds(FdAt(Step(w, e).v, t, f), x)
    ensures exists t', f' :: Holds(FdAt(w.v, t', f'), x) && !Drops(e, t', f')
  {
    hide SoundPipe, ContentsFit;
    if e.Dup2E? && e.t == t && e.g == f {
      assert Holds(FdAt(w.v, e.t, e.f), x) && !Drops(e, e.t, e.f);
    } else {
      assert Holds(FdAt(w.v, t, f), x) && !Drops(e, t, f);
    }
  }

  /** An end without a mark is held after the call exactly if it was. */
  lemma HeldUnmarked(w: World, e: Event, x: PipeEnd)
    requires Sound(w.v) && Enabled(w.v, e) && MarkOf(w.v, e, x).Unmarked?
    ensures Held(Step(w, e).v, x) <==> Held(w.v, x)
  {
    if Held(w.v, x) {
      var t, f :| Holds(FdAt(w.v, t, f), x);
      NotDropped(w.v, e, t, f, x);
      if FdAt(Step(w, e).v, t, f) == FdAt(w.v, t, f) { assert Holds(FdAt(Step(w, e).v, t, f), x); }
      else { FdStays(w, e, t, f); }
    } else {
      UnmarkedStaysFree(w, e, x);
    }
    hide Sound, Step;
  }

  lemma NotDropped(v: Sys, e: Event, t: int, f: int, x: PipeEnd)
    requires MarkOf(v, e, x).Unmarked? && Holds(FdAt(v, t, f), x)
    ensures !Drops(e, t, f) || (e.Dup2E? && FdAt(v, e.t, e.f) == NoFd)
  {
  }

  /**
   Where flag and descriptors of an end agree, a call leaves them in agreement
   exactly if it does not drop a descriptor of that end while another is left.
   */
  lemma StepKeepsAgreementIff(w: World, e: Event, x: PipeEnd)
    requires Sound(w.v) && Enabled(w.v, e) && x.pipe < MAX_PIPES && Agrees(w.v, x)
    ensures |Step(w, e).v.pipes| == MAX_PIPES
    ensures Agrees(Step(w, e).v, x) <==>
      !(MarkOf(w.v, e, x).MarkedClosed? && exists t, f :: Holds(FdAt(w.v, t, f), x) && !Drops(e, t, f))
  {
    StepMarks(w, e, x);
    hide Sound, Step, OpenFlag, Held, Drops;
    match MarkOf(w.v, e, x) {
      case Unmarked => HeldUnmarked(w, e, x);
      case MarkedOpen => HeldAfterMaking(w, e, x);
      case MarkedClosed => HeldAfterDrop(w, e, x);
    }
  }

  // -------------------------------------------------------------------- dup2

  /** The two descriptors are of the same end of a pipe. */
  predicate SameEnd(d: Fd, c: Fd) { d == c && (d.PipeRead? || d.PipeWrite?) }

  /** The end a descriptor of a pipe is of. */
  function EndOf(d: Fd): PipeEnd
    requires d.PipeRead? || d.PipeWrite?
  {
    PipeEnd(d.pipe, d.PipeWrite?)
  }

  /** Descriptor g now is what f was, and if that is an end of a pipe, the end is as open as it was. */
  predicate ActsAs(v: Sys, u: Sys, t: int, f: int, g: int) {
    var d := FdAt(v, t, f);
    && FdAt(u, t, g) == d
    && (((d.PipeRead? || d.PipeWrite?) && d.pipe < |v.pipes| && d.pipe < |u.pipes|) ==>
          OpenFlag(u, EndOf(d)) == OpenFlag(v, EndOf(d)))
  }

  /**
   A dup2 makes one descriptor act as another did exactly if the two are not the
   same descriptor and not of the same open end of a pipe. Either way it reports
   success.
   */
  lemma Dup2ActsIff(v: Sys, t: int, f: int, g: int)
    requires Sound(v) && InTable(v, t, f) && InTable(v, t, g) && FdAt(v, t, f) != NoFd
    ensures var (u, r) := Dup2(v, t, f, g); var d := FdAt(v, t, f);
      && r == g
      && (ActsAs(v, u, t, f, g) <==>
            f != g && !(SameEnd(d, FdAt(v, t, g)) && d.pipe < MAX_PIPES && OpenFlag(v, EndOf(d))))
  {
    hide SoundPipe, ContentsFit;
  }

  /** The two ways to fail: a descriptor copied onto itself is lost... */
  lemma Dup2OntoItself(v: Sys, t: int, f: int)
    requires Sound(v) && InTable(v, t, f) && FdAt(v, t, f) != NoFd
    ensures Dup2(v, t, f, f).1 == f && FdAt(Dup2(v, t, f, f).0, t, f) == NoFd
  {
    hide SoundPipe, ContentsFit;
  }

  /** ...and one copied over another of the same read end breaks the pipe for its writer, with both in place. */
  lemma Dup2OverSameEnd(v: Sys, t: int, f: int, g: int, data: string)
    requires Sound(v) && FdAt(v, t, f).PipeRead? && FdAt(v, t, g) == FdAt(v, t, f) && f != g
    requires FdAt(v, t, f).pipe < MAX_PIPES
    ensures var (u, r) := Dup2(v, t, f, g); var i := FdAt(v, t, f).pipe;
      && r == g && FdAt(u, t, f) == FdAt(u, t, g) == PipeRead(i) && |u.pipes| == MAX_PIPES
      && SoundPipe(u.pipes[i]) && WritePipe(u.pipes[i], data).1 == -1
  {
    assert SoundPipe(v.pipes[FdAt(v, t, f).pipe]);
    hide ContentsFit;
  }

  /** Closing one of two read ends breaks the pipe for the writer while the other is open. */
  lemma CloseOneOfTwoReadEnds(v: Sys, t: int, f: int, data: string)
    requires Sound(v) && FdAt(v, t, f).PipeRead? && v.tables[t].fds[f].pipe < MAX_PIPES
    requires FirstFree(v.tables[t].fds, 0) < MAX_FD
    ensures
      var i := v.tables[t].fds[f].pipe;
      var (two, g) := Dup(v, t, f);
      var (one, _) := Close(two, t, f);
      && FdAt(one, t, g) == PipeRead(i) && |one.pipes| == MAX_PIPES
      && SoundPipe(one.pipes[i]) && WritePipe(one.pipes[i], data).1 == -1
  {
    assert SoundPipe(v.pipes[v.tables[t].fds[f].pipe]);
    hide ContentsFit;
  }
}
