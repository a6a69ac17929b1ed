/** `MotdConfig`: the MOTD entries read from `motd.yml`, each with its frame
    list and frame cursor for animated entries. */
module MotdConfig {
  import opened Wrappers
  import opened Strings

  /** One animation frame: the two MOTD lines. */
  datatype MotdFrame = MotdFrame(line1: string, line2: string)

  /** The cursor `getNextFrame` computes from `c` over `n` frames:
      `(c + 1) % n` in 32-bit Java arithmetic. */
  function NextCursor(c: int, n: int): int
    requires n > 0
  {
    JavaRem(Wrap32(c + 1), n)
  }

  /** The cursor is a valid index, or still at its initial 0 before any frame
      was added. */
  predicate CursorOk(c: int, n: int) {
    0 <= c && (c < n || c == 0)
  }

  /** From a valid cursor, the next one is the following frame, or the first
      after the last, and is again valid. */
  lemma NextCursorInRange(c: int, n: int)
    requires n > 0 && n <= INT_MAX && CursorOk(c, n)
    ensures NextCursor(c, n) == NextFrame(c, n)
    ensures 0 <= NextCursor(c, n) < n
  {
    JavaRemNonNegative(c + 1, n);
    NextFrameIsMod(c, n);
  }

  /** With one frame every cursor, even one set out of range, moves to 0. */
  lemma NextCursorSingleFrame(c: int)
    ensures NextCursor(c, 1) == 0
  {
  }

  /** Appending a frame keeps a valid cursor valid. */
  lemma AddFrameKeepsCursor(c: int, n: nat)
    requires CursorOk(c, n)
    ensures CursorOk(c, n + 1)
  {
  }

  /** `setCurrentFrame` can leave the cursor such that the next step lands on
      a negative index: from -3 over three frames Java computes `-2 % 3 == -2`. */
  lemma NegativeCursorEscapes()
    ensures NextCursor(-3, 3) == -2
  {
    assert JavaDiv(-2, 3) == 0;
  }

  /** A MOTD entry. `line1`/`line2` stay `null` for an animated entry whose
      lines come from its frames. */
  class MotdEntry {
    var key: string
    var enabled: bool
    var line1: Option<string>
    var line2: Option<string>
    var priority: int
    var conditions: seq<string>
    var animated: bool
    var frames: seq<MotdFrame>
    var currentFrame: int

    /** Java `int` fields and a list no longer than an `int` can count. */
    predicate Valid()
      reads this
    {
      IsInt32(currentFrame) && IsInt32(priority) && |frames| <= INT_MAX
    }

    /** The cursor invariant kept by `addFrame` and `getNextFrame`. */
    predicate CursorInRange()
      reads this
    {
      CursorOk(currentFrame, |frames|)
    }

    /** `new MotdEntry()` followed by `setKey(key)`: every other field at its
        Java default. */
    constructor (key: string)
      ensures this.key == key && !enabled && line1.None? && line2.None?
      ensures priority == 0 && conditions == [] && !animated
      ensures frames == [] && currentFrame == 0
      ensures Valid() && CursorInRange()
    {
      this.key := key;
      enabled := false;
      line1 := None;
      line2 := None;
      priority := 0;
      conditions := [];
      animated := false;
      frames := [];
      currentFrame := 0;
    }

    /** `addFrame(frame)`: appends; the cursor is untouched. */
    method AddFrame(f: MotdFrame)
      requires Valid() && |frames| < INT_MAX
      modifies this`frames
      ensures frames == old(frames) + [f]
      ensures Valid()
      ensures old(CursorInRange()) ==> CursorInRange()
    {
      if CursorInRange() {
        AddFrameKeepsCursor(currentFrame, |frames|);
      }
      frames := frames + [f];
    }

    /** `setCurrentFrame(i)`: any `int`, in range or not. */
    method SetCurrentFrame(i: int)
      requires Valid() && IsInt32(i)
      modifies this`currentFrame
      ensures currentFrame == i && Valid()
    {
      currentFrame := i;
    }

    /** `getNextFrame()`: `null` (and no change) without frames; otherwise
        the cursor becomes `(currentFrame + 1) % size` and that frame is
        returned, which throws when the remainder is negative. */
    method GetNextFrame() returns (r: Result<Option<MotdFrame>, JavaException>)
      requires Valid()
      modifies this`currentFrame
      ensures Valid()
      ensures |frames| == 0 ==> r == Success(None) && currentFrame == old(currentFrame)
      ensures |frames| > 0 ==>
        currentFrame == NextCursor(old(currentFrame), |frames|) &&
        r == (if currentFrame < 0 then Failure(IndexOutOfBounds) else Success(Some(frames[currentFrame])))
      ensures |frames| > 0 && old(CursorInRange()) ==>
        currentFrame == NextFrame(old(currentFrame), |frames|) && CursorInRange() &&
        r == Success(Some(frames[currentFrame]))
      ensures |frames| == 1 ==> currentFrame == 0 && r == Success(Some(frames[0]))
    {
      if |frames| == 0 {
        return Success(None);
      }
      if CursorInRange() {
        NextCursorInRange(currentFrame, |frames|);
      }
      currentFrame := NextCursor(currentFrame, |frames|);
      if currentFrame < 0 {
        return Failure(IndexOutOfBounds);
      }
      r := Success(Some(frames[currentFrame]));
    }

    /** `getCurrentFrameData()`: `null` without frames, else the frame at the
        cursor; a cursor outside the list throws. Nothing changes. */
    function CurrentFrameData(): (r: Result<Option<MotdFrame>, JavaException>)
      reads this
      ensures |frames| == 0 <==> r == Success(None)
      ensures r.Failure? <==> |frames| > 0 && !(0 <= currentFrame < |frames|)
      ensures r.Success? && r.value.Some? ==> r.value.value in frames
      ensures CursorInRange() && |frames| > 0 ==> r == Success(Some(frames[currentFrame]))
    {
      if |frames| == 0 then Success(None)
      else if 0 <= currentFrame < |frames| then Success(Some(frames[currentFrame]))
      else Failure(IndexOutOfBounds)
    }
  }

  /** One element of a `frames` list: a YAML map from keys to string values. */
  type FrameMap = map<string, string>

  /** The map holds both lines. */
  predicate Complete(m: FrameMap) {
    "line1" in m && "line2" in m
  }

  function FrameOf(m: FrameMap): MotdFrame
    requires Complete(m)
  {
    MotdFrame(m["line1"], m["line2"])
  }

  /** The frames `loadMotds` keeps from a `frames` list: the maps that hold
      both `line1` and `line2`, in list order. */
  function KeptFrames(ms: seq<FrameMap>): (r: seq<MotdFrame>)
    ensures |r| <= |ms|
  {
    if ms == [] then []
    else
      var last := ms[|ms| - 1];
      KeptFrames(ms[..|ms| - 1]) + (if Complete(last) then [FrameOf(last)] else [])
  }

  /** Filtering distributes over concatenation, so kept frames stay in list order. */
  lemma {:induction false} KeptFramesAppend(a: seq<FrameMap>, b: seq<FrameMap>)
    ensures KeptFrames(a + b) == KeptFrames(a) + KeptFrames(b)
    decreases |b|
  {
    if b == [] {
      assert a + b == a;
    } else {
      var b' := b[..|b| - 1];
      assert (a + b)[..|a + b| - 1] == a + b';
      KeptFramesAppend(a, b');
    }
  }

  /** A frame is kept iff some map of the list holds exactly its two lines. */
  lemma {:induction false} KeptFramesMembers(ms: seq<FrameMap>, f: MotdFrame)
    ensures f in KeptFrames(ms) <==> exists i :: 0 <= i < |ms| && Complete(ms[i]) && FrameOf(ms[i]) == f
  {
    if ms != [] {
      var init := ms[..|ms| - 1];
      KeptFramesMembers(init, f);
      if exists i :: 0 <= i < |init| && Complete(init[i]) && FrameOf(init[i]) == f {
        var i :| 0 <= i < |init| && Complete(init[i]) && FrameOf(init[i]) == f;
        assert ms[i] == init[i];
      }
      if exists i :: 0 <= i < |ms| && Complete(ms[i]) && FrameOf(ms[i]) == f {
        var i :| 0 <= i < |ms| && Complete(ms[i]) && FrameOf(ms[i]) == f;
        if i < |init| { assert init[i] == ms[i]; }
      }
    }
  }

  /** When every map is complete, all are kept, one frame per map. */
  lemma {:induction false} KeptFramesAllComplete(ms: seq<FrameMap>)
    requires forall i :: 0 <= i < |ms| ==> Complete(ms[i])
    ensures |KeptFrames(ms)| == |ms|
    ensures forall i :: 0 <= i < |ms| ==> KeptFrames(ms)[i] == FrameOf(ms[i])
  {
    if ms != [] {
      var init := ms[..|ms| - 1];
      KeptFramesAllComplete(init);
    }
  }

  /** A `motds.<key>` section as YAML presents it: each setting may be absent. */
  datatype MotdSection = MotdSection(
    enabled: Option<bool>,
    priority: Option<int>,
    animated: Option<bool>,
    frames: Option<seq<FrameMap>>,
    line1: Option<string>,
    line2: Option<string>,
    conditions: Option<seq<string>>)

  /** A section whose values Java's accessors can return: an `int` priority
      and a frame list an `ArrayList` can hold. */
  predicate WellFormed(s: MotdSection) {
    (s.priority.Some? ==> IsInt32(s.priority.value)) &&
    (s.frames.Some? ==> |s.frames.value| < INT_MAX)
  }

  /** The entry reads its frames from the list. */
  predicate UsesFrames(s: MotdSection) {
    s.animated.GetOr(false) && s.frames.Some?
  }

  /** What `loadMotds` builds from the section at `key`: enabled by default,
      priority 1, not animated; an animated entry with a `frames` list keeps
      the complete frames and no lines, any other entry gets its lines with
      "" as default; conditions only when listed. */
  predicate LoadedFrom(e: MotdEntry, key: string, s: MotdSection)
    reads e
  {
    e.key == key && e.enabled == s.enabled.GetOr(true) &&
    e.priority == s.priority.GetOr(1) && e.animated == s.animated.GetOr(false) &&
    e.frames == (if UsesFrames(s) then KeptFrames(s.frames.value) else []) &&
    e.line1 == (if UsesFrames(s) then None else Some(s.line1.GetOr(""))) &&
    e.line2 == (if UsesFrames(s) then None else Some(s.line2.GetOr(""))) &&
    e.conditions == s.conditions.GetOr([]) &&
    e.currentFrame == 0
  }

  /** The frame loop of `loadMotds`: every complete map of the list is
      added as a frame, in list order. */
  method AddKeptFrames(e: MotdEntry, ms: seq<FrameMap>)
    requires e.Valid() && |e.frames| + |ms| <= INT_MAX
    modifies e`frames
    ensures e.frames == old(e.frames) + KeptFrames(ms)
    ensures e.Valid()
    ensures old(e.CursorInRange()) ==> e.CursorInRange()
  {
    var i := 0;
    while i < |ms|
      invariant 0 <= i <= |ms|
      invariant e.frames == old(e.frames) + KeptFrames(ms[..i])
      invariant e.Valid()
      invariant old(e.CursorInRange()) ==> e.CursorInRange()
    {
      KeptFramesAppend(ms[..i], [ms[i]]);
      assert ms[..i + 1] == ms[..i] + [ms[i]];
      if Complete(ms[i]) {
        e.AddFrame(FrameOf(ms[i]));
      }
      i := i + 1;
    }
    assert ms[..i] == ms;
  }

  /** One iteration of `loadMotds`: a new entry from its section. */
  method LoadEntry(key: string, s: MotdSection) returns (e: MotdEntry)
    requires WellFormed(s)
    ensures fresh(e) && e.Valid() && e.CursorInRange()
    ensures LoadedFrom(e, key, s)
  {
    e := new MotdEntry(key);
    e.enabled := s.enabled.GetOr(true);
    e.priority := s.priority.GetOr(1);
    e.animated := s.animated.GetOr(false);
    if UsesFrames(s) {
      AddKeptFrames(e, s.frames.value);
    } else {
      e.line1 := Some(s.line1.GetOr(""));
      e.line2 := Some(s.line2.GetOr(""));
    }
    if s.conditions.Some? {
      e.conditions := s.conditions.value;
    }
  }

  /** The keys of `motds` that name a section, in key order. */
  function PresentKeys(keys: seq<string>, sections: map<string, MotdSection>): (r: seq<string>)
    ensures forall k :: k in r <==> k in keys && k in sections
  {
    if keys == [] then []
    else
      var init := PresentKeys(keys[..|keys| - 1], sections);
      var last := keys[|keys| - 1];
      assert forall k :: k in keys <==> k in keys[..|keys| - 1] || k == last;
      init + (if last in sections then [last] else [])
  }

  /** One more key is examined. */
  lemma PresentKeysSnoc(keys: seq<string>, i: nat, sections: map<string, MotdSection>)
    requires i < |keys|
    ensures PresentKeys(keys[..i + 1], sections) ==
      PresentKeys(keys[..i], sections) + (if keys[i] in sections then [keys[i]] else [])
  {
    assert keys[..i + 1][..i] == keys[..i];
  }

  /** `entries[j]` is the entry loaded for the `j`-th present key, each a
      separate object with a valid cursor. */
  predicate Loaded(entries: seq<MotdEntry>, present: seq<string>, sections: map<string, MotdSection>)
    reads entries
  {
    |entries| == |present| &&
    (forall j :: 0 <= j < |entries| ==> present[j] in sections) &&
    (forall j :: 0 <= j < |entries| ==>
      entries[j].Valid() && entries[j].CursorInRange() &&
      LoadedFrom(entries[j], present[j], sections[present[j]])) &&
    (forall j, l :: 0 <= j < l < |entries| ==> entries[j] != entries[l])
  }

  /** Appending a newly loaded, separate entry keeps `Loaded`. */
  lemma LoadedSnoc(entries: seq<MotdEntry>, present: seq<string>, sections: map<string, MotdSection>,
                   e: MotdEntry, key: string)
    requires Loaded(entries, present, sections)
    requires key in sections && e.Valid() && e.CursorInRange() && LoadedFrom(e, key, sections[key])
    requires e !in entries
    ensures Loaded(entries + [e], present + [key], sections)
  {
  }

  /** One step of `loadMotds()`: key `i` examined, and its entry appended
      when it names a section. */
  method LoadStep(keys: seq<string>, i: nat, sections: map<string, MotdSection>,
                  loaded: seq<MotdEntry>, ghost present: seq<string>)
    returns (next: seq<MotdEntry>, ghost present': seq<string>)
    requires i < |keys| && forall k :: k in sections ==> WellFormed(sections[k])
    requires present == PresentKeys(keys[..i], sections) && Loaded(loaded, present, sections)
    ensures present' == PresentKeys(keys[..i + 1], sections) && Loaded(next, present', sections)
    ensures forall j :: 0 <= j < |next| ==> (j < |loaded| && next[j] == loaded[j]) || fresh(next[j])
  {
    var key := keys[i];
    PresentKeysSnoc(keys, i, sections);
    if key in sections {
      var e := LoadEntry(key, sections[key]);
      assert Loaded(loaded, present, sections);
      LoadedSnoc(loaded, present, sections, e, key);
      next := loaded + [e];
      present' := present + [key];
    } else {
      next := loaded;
      present' := present;
    }
  }

  /** `loadMotds()`: one fresh entry per key that names a section, in key
      order; a key without a section is skipped. */
  method LoadMotds(keys: seq<string>, sections: map<string, MotdSection>) returns (loaded: seq<MotdEntry>)
    requires forall k :: k in sections ==> WellFormed(sections[k])
    ensures Loaded(loaded, PresentKeys(keys, sections), sections)
    ensures forall j :: 0 <= j < |loaded| ==> fresh(loaded[j])
  {
    loaded := [];
    ghost var present: seq<string> := [];
    var i := 0;
    while i < |keys|
      invariant 0 <= i <= |keys|
      invariant present == PresentKeys(keys[..i], sections)
      invariant Loaded(loaded, present, sections)
      invariant forall j :: 0 <= j < |loaded| ==> fresh(loaded[j])
    {
      loaded, present := LoadStep(keys, i, sections, loaded, present);
      i := i + 1;
    }
    assert keys[..i] == keys;
  }

  /** The settings of `motd.yml` the MOTD logic consults. `rotationType`
      is `null` when the file has no `rotation` section. */
  datatype Settings = Settings(
    enabled: bool,
    maxPlayers: int,
    fakePlayerCountEnabled: bool,
    fakePlayerCountAdd: int,
    fakePlayerCountFixed: int,
    colorDownsamplingEnabled: bool,
    colorDownsamplingMethod: string,
    rotationType: Option<string>,
    animationEnabled: bool,
    frameInterval: int)

  /** The entries, in the order of the `LinkedHashMap` `motds`. */
  class MotdConfigStore {
    var motds: seq<MotdEntry>

    constructor ()
      ensures motds == []
    {
      motds := [];
    }

    /** `reload()` as far as the entries go: `motds` is cleared and refilled
        by `loadMotds`. */
    method Reload(keys: seq<string>, sections: map<string, MotdSection>)
      requires forall k :: k in sections ==> WellFormed(sections[k])
      modifies this
      ensures Loaded(motds, PresentKeys(keys, sections), sections)
      ensures forall j :: 0 <= j < |motds| ==> fresh(motds[j])
    {
      motds := LoadMotds(keys, sections);
    }
  }
}
