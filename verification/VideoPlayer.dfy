/** A video dataset played clip by clip, once or in a cycle, with one running frame index. */
module VideoPlayer {
  import opened Wrappers

  /** A clip: how many frames it declares, the index of its first frame, and how many frames its decoder yields. */
  datatype Clip = Clip(frameCount: nat, start: nat, decodes: nat)

  /** A manifest entry: the declared and the probed frame count, and the start index if given. */
  datatype ClipEntry = ClipEntry(frameCount: int, probed: int, start: Option<int>, decodes: nat)

  datatype ClipError = NoFrameCount(entry: nat) | NegativeStart(entry: nat)

  function CountOf(e: ClipEntry): int {
    if e.frameCount != 0 then e.frameCount else e.probed
  }

  /** The declared count, or the probed one if none is declared, is not positive. */
  ghost predicate Countless(e: ClipEntry) {
    e.frameCount < 0 || (e.frameCount == 0 && e.probed <= 0)
  }

  ghost predicate Usable(e: ClipEntry) {
    !Countless(e) && (e.start.Some? ==> e.start.value >= 0)
  }

  /** The clip an entry stands for, after the clips before it. */
  ghost predicate ClipFor(clips: seq<Clip>, i: nat, e: ClipEntry)
    requires i < |clips|
  {
    && clips[i].frameCount > 0 && clips[i].decodes == e.decodes
    && (e.frameCount != 0 ==> clips[i].frameCount == e.frameCount)
    && (e.frameCount == 0 ==> clips[i].frameCount == e.probed)
    && clips[i].start == match e.start
                         case Some(s) => s
                         case None => if i == 0 then 0 else clips[i - 1].start + clips[i - 1].frameCount
  }

  method BuildClips(entries: seq<ClipEntry>) returns (r: Result<seq<Clip>, ClipError>)
    ensures r.Success? ==> |r.value| == |entries| && forall i :: 0 <= i < |entries| ==> ClipFor(r.value, i, entries[i])
    ensures r.Success? <==> forall i :: 0 <= i < |entries| ==> Usable(entries[i])
    ensures r.Failure? ==> r.error.entry < |entries| && (forall k :: 0 <= k < r.error.entry ==> Usable(entries[k])) &&
                           !Usable(entries[r.error.entry]) &&
                           (r.error.NoFrameCount? <==> Countless(entries[r.error.entry]))
  {
    var clips: seq<Clip> := [];
    var nextFrameIndex: Option<nat> := None;
    for i := 0 to |entries|
      invariant |clips| == i && forall k :: 0 <= k < i ==> ClipFor(clips, k, entries[k])
      invariant forall k :: 0 <= k < i ==> Usable(entries[k])
      invariant nextFrameIndex == if i == 0 then None else Some(clips[i - 1].start + clips[i - 1].frameCount)
    {
      var e := entries[i];
      var frameCount := CountOf(e);
      if frameCount <= 0 {
        return Failure(NoFrameCount(i));
      }
      var start := if e.start.Some? then e.start.value else if nextFrameIndex == None then 0 else nextFrameIndex.value;
      if start < 0 {
        return Failure(NegativeStart(i));
      }
      ghost var before := clips;
      clips := clips + [Clip(frameCount, start, e.decodes)];
      assert forall k :: 0 <= k < i ==> ClipFor(before, k, entries[k]);
      nextFrameIndex := Some(start + frameCount);
    }
    r := Success(clips);
  }

  // ----- one pass over the clips -----

  /** The frames a clip yields before it is left: no more than declared, no more than decoded. */
  ghost function Yield(c: Clip): nat {
    if c.decodes < c.frameCount then c.decodes else c.frameCount
  }

  /** The frames yielded by the first `n` clips. */
  ghost function Before(clips: seq<Clip>, n: nat): nat
    requires n <= |clips|
  {
    if n == 0 then 0 else Before(clips, n - 1) + Yield(clips[n - 1])
  }

  ghost function PassLength(clips: seq<Clip>): nat {
    Before(clips, |clips|)
  }

  /** Counting to `k` in a circle of `n`. */
  ghost function Cyclic(k: nat, n: nat): (r: nat)
    requires n > 0
    ensures r < n
  {
    if k == 0 then 0
    else if Cyclic(k - 1, n) + 1 == n then 0
    else Cyclic(k - 1, n) + 1
  }

  lemma {:induction false} CyclicIsModulo(k: nat, n: nat)
    requires n > 0
    ensures Cyclic(k, n) == k % n
  {
    if k > 0 {
      var p := Cyclic(k - 1, n);
      assert Cyclic(k, n) == if p + 1 == n then 0 else p + 1;
      CyclicIsModulo(k - 1, n);
      ModuloNext(k, n);
    }
  }

  lemma ModuloNext(k: nat, n: nat)
    requires n > 0 && k > 0
    ensures k % n == if (k - 1) % n + 1 == n then 0 else (k - 1) % n + 1
  {
    assert k - 1 == n * ((k - 1) / n) + (k - 1) % n;
    assert k == n * (k / n) + k % n;
    NextRemainder(n, k / n - (k - 1) / n, (k - 1) % n, k % n);
  }

  lemma NextRemainder(n: nat, d: int, r: nat, next: nat)
    requires n > 0 && r < n && next < n && n * d == r + 1 - next
    ensures next == if r + 1 == n then 0 else r + 1
  {
    assert d >= 2 ==> n * d >= n * 2;
    assert d <= -1 ==> n * d <= n * -1;
  }

  /** A frame: its clip and its position in the clip. */
  datatype Frame = Frame(clip: nat, offset: nat)

  /** The `q`-th frame of a pass is the given one. */
  ghost predicate IsFrame(clips: seq<Clip>, q: nat, f: Frame) {
    f.clip < |clips| && f.offset < Yield(clips[f.clip]) && Before(clips, f.clip) + f.offset == q
  }

  lemma {:induction false} BeforeGrows(clips: seq<Clip>, i: nat, j: nat)
    requires i <= j <= |clips|
    ensures Before(clips, i) <= Before(clips, j)
  {
    if i < j {
      BeforeGrows(clips, i, j - 1);
    }
  }

  /** No two frames of a pass are at the same position. */
  lemma FrameUnique(clips: seq<Clip>, q: nat, f: Frame, g: Frame)
    requires IsFrame(clips, q, f) && IsFrame(clips, q, g)
    ensures f == g
  {
    if f.clip < g.clip {
      BeforeGrows(clips, f.clip + 1, g.clip);
    } else if g.clip < f.clip {
      BeforeGrows(clips, g.clip + 1, f.clip);
    }
  }

  ghost function FrameIndex(clips: seq<Clip>, f: Frame): nat
    requires f.clip < |clips|
  {
    clips[f.clip].start + f.offset
  }

  /** The clips follow each other without a gap and decode at least what they declare. */
  ghost predicate Seamless(clips: seq<Clip>) {
    forall i :: 0 <= i < |clips| ==> SeamlessAt(clips, i)
  }

  ghost predicate SeamlessAt(clips: seq<Clip>, i: nat)
    requires i < |clips|
  {
    && clips[i].decodes >= clips[i].frameCount
    && clips[i].start == if i == 0 then 0 else clips[i - 1].start + clips[i - 1].frameCount
  }

  /** Without explicit start indices the clips built are seamless, if they decode what they declare. */
  lemma BuiltSeamless(entries: seq<ClipEntry>, clips: seq<Clip>)
    requires |clips| == |entries| && forall i :: 0 <= i < |entries| ==> ClipFor(clips, i, entries[i])
    requires forall i :: 0 <= i < |entries| ==> entries[i].start == None && entries[i].decodes >= CountOf(entries[i])
    ensures Seamless(clips)
  {
    forall i | 0 <= i < |clips| ensures SeamlessAt(clips, i) {
      assert ClipFor(clips, i, entries[i]);
    }
  }

  lemma {:induction false} SeamlessStart(clips: seq<Clip>, i: nat)
    requires Seamless(clips) && i < |clips|
    ensures clips[i].start == Before(clips, i)
  {
    assert SeamlessAt(clips, i);
    if i > 0 {
      assert SeamlessAt(clips, i - 1);
      SeamlessStart(clips, i - 1);
    }
  }

  /** In a seamless pass the frame index is the position in the pass. */
  lemma SeamlessIndex(clips: seq<Clip>, q: nat, f: Frame)
    requires Seamless(clips) && IsFrame(clips, q, f)
    ensures FrameIndex(clips, f) == q
  {
    SeamlessStart(clips, f.clip);
  }

  // ----- the player -----

  /** The clip after `i`, in a circle. */
  ghost function Following(clips: seq<Clip>, i: nat): nat
    requires i < |clips|
  {
    if i == |clips| - 1 then 0 else i + 1
  }

  /** How many clips are between `i` and `t`, in a circle. */
  ghost function Steps(clips: seq<Clip>, i: nat, t: nat): nat
    requires i < |clips| && t < |clips|
  {
    if i <= t then t - i else t + |clips| - i
  }

  /** A clip and a position in it. */
  datatype Place = Place(clip: nat, offset: nat)

  ghost predicate OnClip(clips: seq<Clip>, p: Place) {
    p.clip < |clips|
  }

  /** A read at the place succeeds. */
  ghost predicate Decodes(clips: seq<Clip>, p: Place)
    requires OnClip(clips, p)
  {
    p.offset < clips[p.clip].decodes
  }

  /**
   Where the reading loop of a cyclic player is after `n` failed reads: each takes it to the beginning of the
   next clip.
   */
  ghost function AfterFailed(clips: seq<Clip>, p: Place, n: nat): (r: Place)
    requires OnClip(clips, p)
    ensures OnClip(clips, r)
  {
    if n == 0 then p else Place(Following(clips, AfterFailed(clips, p, n - 1).clip), 0)
  }

  lemma {:induction false} ClipAfter(clips: seq<Clip>, p: Place, t: nat) returns (n: nat)
    requires OnClip(clips, p) && t < |clips|
    ensures n > 0 && AfterFailed(clips, p, n) == Place(t, 0)
    decreases Steps(clips, 0, t)
  {
    if t == 0 {
      n := ToEnd(clips, p);
      n := n + 1;
    } else {
      n := ClipAfter(clips, p, t - 1);
      n := n + 1;
    }
  }

  /** The circle comes to its last clip. */
  lemma {:induction false} ToEnd(clips: seq<Clip>, p: Place) returns (n: nat)
    requires OnClip(clips, p)
    ensures AfterFailed(clips, p, n).clip == |clips| - 1
  {
    n := 0;
    while AfterFailed(clips, p, n).clip != |clips| - 1
      decreases |clips| - AfterFailed(clips, p, n).clip
    {
      n := n + 1;
    }
  }

  /**
   The reading loop of a cyclic player comes to a read that succeeds exactly if a pass has frames; otherwise it
   never ends.
   */
  lemma LoopFindsIff(clips: seq<Clip>, p: Place)
    requires OnClip(clips, p) && forall k :: 0 <= k < |clips| ==> clips[k].frameCount > 0
    ensures (exists n: nat :: Decodes(clips, AfterFailed(clips, p, n))) <==> PassLength(clips) > 0
  {
    if n: nat :| Decodes(clips, AfterFailed(clips, p, n)) {
      BeforeGrows(clips, AfterFailed(clips, p, n).clip + 1, |clips|);
    }
    if PassLength(clips) > 0 {
      var t := SomeYielding(clips, |clips|);
      var n := ClipAfter(clips, p, t);
      assert Decodes(clips, AfterFailed(clips, p, n));
    }
  }

  /** The frame is read after exactly the reads that fail. */
  ghost predicate FirstDecoded(clips: seq<Clip>, p: Place, f: Frame)
    requires OnClip(clips, p)
  {
    exists n: nat :: AfterFailed(clips, p, n) == Place(f.clip, f.offset) && Decodes(clips, AfterFailed(clips, p, n))
      && forall m: nat :: m < n ==> !Decodes(clips, AfterFailed(clips, p, m))
  }

  class VideoDatasetPlayer {
    const clips: seq<Clip>
    const nonCycle: bool
    var currentClipIndex: nat
    var currentFrameOffset: nat
    /** The open decoder's position in the current clip. */
    var capture: Option<nat>
    var isEnd: bool
    /** Frames handed out so far. */
    ghost var given: nat

    /** Where in a pass the player is. */
    ghost function Position(): nat
      reads this
      requires currentClipIndex < |clips|
    {
      if isEnd then PassLength(clips) else Before(clips, currentClipIndex) + currentFrameOffset
    }

    /** The end of a pass is the beginning of the next one. */
    ghost function Wrapped(position: nat): nat
    {
      if position == PassLength(clips) then 0 else position
    }

    /** What holds even at the end of a clip. */
    ghost predicate Placed()
      reads this
    {
      && currentClipIndex < |clips| && (forall i :: 0 <= i < |clips| ==> clips[i].frameCount > 0)
      && currentFrameOffset <= Yield(clips[currentClipIndex])
      && (capture.Some? ==> capture.value == currentFrameOffset)
      && (isEnd ==> nonCycle)
      && (if nonCycle then given == Position() else PassLength(clips) > 0 ==>
           Cyclic(given, PassLength(clips)) == Wrapped(Position()))
    }

    ghost predicate Valid()
      reads this
    {
      Placed() && currentFrameOffset < clips[currentClipIndex].frameCount
    }

    constructor (clips: seq<Clip>, nonCycle: bool)
      requires clips != [] && forall i :: 0 <= i < |clips| ==> clips[i].frameCount > 0
      ensures Valid() && given == 0 && !isEnd
      ensures this.clips == clips && this.nonCycle == nonCycle
    {
      this.clips, this.nonCycle := clips, nonCycle;
      currentClipIndex, currentFrameOffset, capture, isEnd := 0, 0, None, false;
      given := 0;
    }

    /** Opens the current clip at the current offset, unless it is open. */
    method EnsureCapture()
      requires Valid()
      modifies this`capture
      ensures Valid() && capture == Some(currentFrameOffset)
    {
      if capture.Some? {
        return;
      }
      capture := Some(0);
      if currentFrameOffset != 0 {
        capture := Some(currentFrameOffset);
      }
    }

    /** After the last frame of a clip: the next clip, or the end of the pass. */
    method AdvanceAfterClipEnd()
      requires Placed() && !isEnd && currentFrameOffset == Yield(clips[currentClipIndex])
      modifies this`currentClipIndex, this`currentFrameOffset, this`capture, this`isEnd
      ensures Valid() && capture == None
      ensures isEnd <==> nonCycle && old(currentClipIndex) == |clips| - 1
      ensures currentClipIndex == Following(clips, old(currentClipIndex)) && currentFrameOffset == 0
    {
      var reachedLastClip := currentClipIndex >= |clips| - 1;
      capture := None;
      if reachedLastClip {
        if nonCycle {
          isEnd := true;
        }
        currentClipIndex, currentFrameOffset := 0, 0;
        return;
      }
      currentClipIndex, currentFrameOffset := currentClipIndex + 1, 0;
    }

    /** When a clip decodes no further: the next clip, or the end. */
    method AdvanceToNextClip() returns (more: bool)
      requires Valid() && !isEnd && currentFrameOffset == Yield(clips[currentClipIndex])
      modifies this`currentClipIndex, this`currentFrameOffset, this`capture, this`isEnd
      ensures Valid() && more == !isEnd
      ensures isEnd <==> nonCycle && old(currentClipIndex) == |clips| - 1
      ensures more ==> currentClipIndex == Following(clips, old(currentClipIndex)) && currentFrameOffset == 0
    {
      var reachedLastClip := currentClipIndex >= |clips| - 1;
      capture := None;
      if reachedLastClip {
        if nonCycle {
          isEnd := true;
          return false;
        }
        currentClipIndex := 0;
      } else {
        currentClipIndex := currentClipIndex + 1;
      }
      currentFrameOffset := 0;
      return !isEnd;
    }

    /** The decoded frame, its index in the dataset, and the move past it. */
    method HandOut() returns (r: Option<Frame>, index: Option<nat>)
      requires Valid() && !isEnd && capture == Some(currentFrameOffset) &&
        currentFrameOffset < clips[currentClipIndex].decodes
      modifies this
      ensures Valid() && given == old(given) + 1
      ensures r == Some(Frame(old(currentClipIndex), old(currentFrameOffset))) &&
        index == Some(FrameIndex(clips, r.value))
      ensures clips[r.value.clip].start <= index.value < clips[r.value.clip].start + clips[r.value.clip].frameCount
      ensures if nonCycle then old(given) < PassLength(clips) && IsFrame(clips, old(given), r.value)
              else PassLength(clips) > 0 && IsFrame(clips, Cyclic(old(given), PassLength(clips)), r.value)
    {
      var clip := clips[currentClipIndex];
      capture := Some(capture.value + 1);
      r := Some(Frame(currentClipIndex, currentFrameOffset));
      index := Some(clip.start + currentFrameOffset);
      BeforeGrows(clips, currentClipIndex + 1, |clips|);
      currentFrameOffset := currentFrameOffset + 1;
      given := given + 1;
      if currentFrameOffset >= clip.frameCount {
        AdvanceAfterClipEnd();
      }
    }

    /**
     Reads the next frame. In a cycle the k-th frame read is the frame at k modulo the length of a pass, whatever
     the clips decode; played once, it is the frame at k, and from the end of the pass on there is none. The
     index handed out lies in the clip's range. In a cycle some clip has to decode something.
     */
    method ReadFrame() returns (r: Option<Frame>, index: Option<nat>)
      requires Valid() && (nonCycle || PassLength(clips) > 0)
      modifies this
      ensures Valid()
      ensures given == old(given) + if r.Some? then 1 else 0
      ensures nonCycle ==>
        (r.Some? <==> old(given) < PassLength(clips)) && (r.Some? ==> IsFrame(clips, old(given), r.value))
      ensures !nonCycle ==>
        r.Some? && FirstDecoded(clips, Place(old(currentClipIndex), old(currentFrameOffset)), r.value)
      ensures !nonCycle ==> r.Some? && IsFrame(clips, Cyclic(old(given), PassLength(clips)), r.value)
      ensures r.Some? ==> index == Some(FrameIndex(clips, r.value)) &&
                          clips[r.value.clip].start <= index.value < clips[r.value.clip].start +
                            clips[r.value.clip].frameCount
      ensures r == None ==> index == None && isEnd
    {
      if isEnd {
        return None, None;
      }
      ghost var start, failed: nat := Place(currentClipIndex, currentFrameOffset), 0;
      ghost var target := if PassLength(clips) > 0 then SomeYielding(clips, |clips|) else 0;
      while true
        invariant Valid() && !isEnd && given == old(given)
        invariant !nonCycle ==> Place(currentClipIndex, currentFrameOffset) == AfterFailed(clips, start, failed)
        invariant !nonCycle ==> forall m: nat :: m < failed ==> !Decodes(clips, AfterFailed(clips, start, m))
        decreases if nonCycle then |clips| - currentClipIndex
                  else if currentClipIndex == target && currentFrameOffset >= clips[target].decodes then |clips|
                  else Steps(clips, currentClipIndex, target)
      {
        EnsureCapture();
        var clip := clips[currentClipIndex];
        if capture.value < clip.decodes {
          r, index := HandOut();
          return;
        }
        failed := failed + 1;
        var more := AdvanceToNextClip();
        if !more {
          return None, None;
        }
      }
    }
  }

  /** In a pass with frames, some clip yields one. */
  ghost function SomeYielding(clips: seq<Clip>, n: nat): (i: nat)
    requires n <= |clips| && Before(clips, n) > 0
    ensures i < |clips| && clips[i].decodes > 0
  {
    if Yield(clips[n - 1]) > 0 then n - 1 else SomeYielding(clips, n - 1)
  }

  /** Played in a cycle from seamless clips, the k-th frame has index k modulo the total; played once, index k. */
  lemma SeamlessPlay(clips: seq<Clip>, k: nat, f: Frame)
    requires Seamless(clips) && PassLength(clips) > 0
    ensures IsFrame(clips, k % PassLength(clips), f) ==> FrameIndex(clips, f) == k % PassLength(clips)
    ensures IsFrame(clips, k, f) ==> FrameIndex(clips, f) == k
    ensures PassLength(clips) == TotalFrames(clips)
  {
    if IsFrame(clips, k % PassLength(clips), f) {
      SeamlessIndex(clips, k % PassLength(clips), f);
    }
    if IsFrame(clips, k, f) {
      SeamlessIndex(clips, k, f);
    }
    SeamlessTotal(clips, |clips|);
    assert clips[..|clips|] == clips;
  }

  /** The dataset's total: the declared frames of all clips. */
  ghost function TotalFrames(clips: seq<Clip>): nat {
    if clips == [] then 0 else TotalFrames(clips[..|clips| - 1]) + clips[|clips| - 1].frameCount
  }

  lemma {:induction false} SeamlessTotal(clips: seq<Clip>, n: nat)
    requires Seamless(clips) && n <= |clips|
    ensures Before(clips, n) == TotalFrames(clips[..n])
  {
    if n > 0 {
      SeamlessTotal(clips, n - 1);
      assert SeamlessAt(clips, n - 1);
      assert clips[..n][..n - 1] == clips[..n - 1];
    }
  }
}
