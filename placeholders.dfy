/** `PlaceholderManager`: registered custom and relational placeholders,
    frame animations, literal token substitution and the `dztablist`
    PlaceholderAPI expansion. */
module Placeholders {
  import opened Wrappers
  import opened Strings
  import opened Host

  // ---------------------------------------------------------------------
  // Animation frames
  // ---------------------------------------------------------------------

  /** The mutable part of an `Animation`. */
  datatype AnimState = AnimState(currentFrame: int, lastUpdate: int)

  /** The frame cursor points into the frames, or there are no frames. */
  predicate InRange(n: nat, s: AnimState) {
    n == 0 || 0 <= s.currentFrame < n
  }

  /** The interval has elapsed; the difference is a `long` subtraction. */
  predicate Due(interval: int, s: AnimState, now: int) {
    Wrap64(now - s.lastUpdate) >= interval
  }

  /** The state after a read that returns normally: one frame further
      (`(currentFrame + 1) % n`) and `lastUpdate` reset exactly when the
      interval has elapsed, else unchanged. A read of an animation without
      frames throws before any assignment, so it leaves the state as it was. */
  function After(n: nat, interval: int, s: AnimState, now: int): (t: AnimState)
    ensures InRange(n, s) ==> InRange(n, t)
    ensures InRange(n, s) && n > 0 && Due(interval, s, now) ==> t == AnimState(NextFrame(s.currentFrame, n), now)
    ensures !(n > 0 && Due(interval, s, now)) ==> t == s
  {
    if n > 0 && Due(interval, s, now) then
      NextFrameIsMod(s.currentFrame, n);
      AnimState((s.currentFrame + 1) % n, now)
    else s
  }

  /** What one `getCurrentFrame()` returns: the frame after the update, or
      the exception an empty frame array raises (`% 0` when the interval has
      elapsed, the array access otherwise). */
  function FrameRead(frames: seq<string>, interval: int, s: AnimState, now: int): (r: Result<string, JavaException>)
    requires InRange(|frames|, s)
    ensures |frames| == 0 <==> r.Failure?
    ensures |frames| == 0 ==> r.error == (if Due(interval, s, now) then ArithmeticException else IndexOutOfBounds)
    ensures |frames| > 0 && Due(interval, s, now) ==> r.value == frames[NextFrame(s.currentFrame, |frames|)]
    ensures |frames| > 0 && !Due(interval, s, now) ==> r.value == frames[s.currentFrame]
  {
    if |frames| == 0 then Failure(if Due(interval, s, now) then ArithmeticException else IndexOutOfBounds)
    else Success(frames[After(|frames|, interval, s, now).currentFrame])
  }

  /** The cursor after `k` reads that each found the interval elapsed. */
  function Advanced(c: int, n: nat, k: nat): int
    decreases k
  {
    if k == 0 then c else Advanced(NextFrame(c, n), n, k - 1)
  }

  lemma {:induction false} AdvancedAdd(c: int, n: nat, a: nat, b: nat)
    ensures Advanced(c, n, a + b) == Advanced(Advanced(c, n, a), n, b)
    decreases a
  {
    if a > 0 {
      AdvancedAdd(NextFrame(c, n), n, a - 1, b);
    }
  }

  /** Before the end is reached, `k` elapsed reads move the cursor `k` on. */
  lemma {:induction false} AdvancedBelow(c: int, n: nat, k: nat)
    requires 0 <= c && c + k < n
    ensures Advanced(c, n, k) == c + k
    decreases k
  {
    if k > 0 {
      AdvancedBelow(c + 1, n, k - 1);
    }
  }

  /** After as many elapsed reads as there are frames, the cursor is back
      where it started: every frame is shown once per cycle. */
  lemma FullCycle(c: int, n: nat)
    requires 0 <= c < n
    ensures Advanced(c, n, n) == c
  {
    AdvancedAdd(c, n, n - 1 - c, c + 1);
    AdvancedBelow(c, n, n - 1 - c);
    AdvancedBelow(0, n, c);
    assert Advanced(n - 1, n, c + 1) == Advanced(0, n, c);
  }

  /** A single-frame animation always shows that frame. */
  lemma SingleFrame(frame: string, interval: int, s: AnimState, now: int)
    requires InRange(1, s)
    ensures FrameRead([frame], interval, s, now) == Success(frame)
  {
  }

  class Animation {
    const frames: seq<string>
    const interval: int
    var currentFrame: int
    var lastUpdate: int

    function State(): AnimState
      reads this
    {
      AnimState(currentFrame, lastUpdate)
    }

    ghost predicate Valid()
      reads this
    {
      InRange(|frames|, State()) && IsInt64(lastUpdate)
    }

    /** A new animation starts at frame 0; `now` stands for the clock read. */
    constructor(frames: seq<string>, interval: int, now: int)
      requires IsInt64(now)
      ensures Valid()
      ensures this.frames == frames && this.interval == interval
      ensures State() == AnimState(0, now)
    {
      this.frames := frames;
      this.interval := interval;
      currentFrame := 0;
      lastUpdate := now;
    }

    /** The frame shown now, without changing anything. */
    function Shown(): string
      reads this
      requires Valid() && |frames| > 0
    {
      frames[currentFrame]
    }

    /** `getCurrentFrame()`, with `now` for `System.currentTimeMillis()`. */
    method GetCurrentFrame(now: int) returns (r: Result<string, JavaException>)
      requires Valid() && IsInt64(now)
      modifies this
      ensures Valid()
      ensures State() == After(|frames|, interval, old(State()), now)
      ensures r == FrameRead(frames, interval, old(State()), now)
      ensures r.Success? ==> r.value == Shown()
    {
      if |frames| == 0 {
        if Wrap64(now - lastUpdate) >= interval {
          return Failure(ArithmeticException);
        }
        return Failure(IndexOutOfBounds);
      }
      if Wrap64(now - lastUpdate) >= interval {
        currentFrame := (currentFrame + 1) % |frames|;
        lastUpdate := now;
      }
      r := Success(frames[currentFrame]);
    }
  }

  // ---------------------------------------------------------------------
  // Tokens
  // ---------------------------------------------------------------------

  function AnimationToken(id: string): string { "%animation_" + id + "%" }
  function PlaceholderToken(id: string): string { "%placeholder_" + id + "%" }
  function RelationalToken(id: string): string { "%rel_" + id + "%" }

  /** Every target of the chain is a `%`-delimited token. */
  predicate PercentTargets(pairs: seq<(string, string)>) {
    NonEmptyTargets(pairs) && forall k :: 0 <= k < |pairs| ==> pairs[k].0[0] == '%'
  }

  /** A text without `%` holds no token, so every substitution chain
      returns it unchanged. */
  lemma WithoutPercentUnchanged(text: string, pairs: seq<(string, string)>)
    requires PercentTargets(pairs) && '%' !in text
    ensures ReplaceEach(text, pairs) == text
  {
    forall k, i: nat | 0 <= k < |pairs| && i <= |text| ensures !OccursAt(text, pairs[k].0, i) {
      if i + |pairs[k].0| <= |text| {
        var t := text[i..i + |pairs[k].0|];
        assert t[0] == text[i];
        assert text[i] in text;
      }
    }
    ReplaceEachAbsent(text, pairs);
  }

  /** A `%`-delimited token: `%`, a name without `%`, `%`. */
  predicate IsToken(p: string) {
    |p| >= 2 && p[0] == '%' && p[|p| - 1] == '%' && forall k :: 0 < k < |p| - 1 ==> p[k] != '%'
  }

  /** In `pre + "%" + name + "%" + post`, with no other `%`, the only `%`s
      are the token's own two. */
  lemma PercentPositions(pre: string, name: string, post: string, j: nat)
    requires '%' !in pre && '%' !in name && '%' !in post
    requires j < |pre + "%" + name + "%" + post|
    ensures (pre + "%" + name + "%" + post)[j] == '%' <==> j == |pre| || j == |pre| + |name| + 1
  {
    var text := pre + "%" + name + "%" + post;
    if j < |pre| {
      assert text[j] == pre[j] && pre[j] in pre;
    } else if |pre| < j < |pre| + |name| + 1 {
      assert text[j] == name[j - |pre| - 1] && name[j - |pre| - 1] in name;
    } else if j > |pre| + |name| + 1 {
      assert text[j] == post[j - |pre| - |name| - 2] && post[j - |pre| - |name| - 2] in post;
    }
  }

  /** Another token does not occur in such a text. */
  lemma OtherTokenAbsent(pre: string, name: string, post: string, p: string, i: nat)
    requires '%' !in pre && '%' !in name && '%' !in post
    requires IsToken(p) && p != "%" + name + "%"
    ensures !OccursAt(pre + "%" + name + "%" + post, p, i)
  {
    var text := pre + "%" + name + "%" + post;
    if i + |p| <= |text| {
      var w := text[i..i + |p|];
      PercentPositions(pre, name, post, i);
      PercentPositions(pre, name, post, i + |p| - 1);
      assert w[0] == text[i] && w[|p| - 1] == text[i + |p| - 1];
      if i == |pre| && i + |p| - 1 == |pre| + |name| + 1 {
        assert text == pre + ("%" + name + "%") + post;
        assert w == "%" + name + "%";
      }
    }
  }

  /** A token no entry names is left in the text literally, whatever the
      chain: with no other `%` around it, no target can match. */
  lemma UnknownTokenStays(pre: string, name: string, post: string, pairs: seq<(string, string)>)
    requires '%' !in pre && '%' !in name && '%' !in post
    requires PercentTargets(pairs)
    requires forall k :: 0 <= k < |pairs| ==> IsToken(pairs[k].0) && pairs[k].0 != "%" + name + "%"
    ensures ReplaceEach(pre + "%" + name + "%" + post, pairs) == pre + "%" + name + "%" + post
  {
    var text := pre + "%" + name + "%" + post;
    forall k, i: nat | 0 <= k < |pairs| && i <= |text| ensures !OccursAt(text, pairs[k].0, i) {
      OtherTokenAbsent(pre, name, post, pairs[k].0, i);
    }
    ReplaceEachAbsent(text, pairs);
  }

  /** The keys of a map, listed once each in its iteration order. */
  predicate IsEnumeration(order: seq<string>, keys: set<string>) {
    (forall i, j :: 0 <= i < j < |order| ==> order[i] != order[j])
    && (forall k :: k in keys ==> k in order)
    && (forall i :: 0 <= i < |order| ==> order[i] in keys)
  }

  // ---------------------------------------------------------------------
  // Reading a list of animations
  // ---------------------------------------------------------------------

  ghost function StatesOf(objs: seq<Animation>): (states: seq<AnimState>)
    reads objs
    ensures |states| == |objs| && forall i :: 0 <= i < |objs| ==> states[i] == objs[i].State()
  {
    seq(|objs|, i requires 0 <= i < |objs| reads objs => objs[i].State())
  }

  /** Valid animations, none listed twice. */
  ghost predicate Separate(objs: seq<Animation>)
    reads objs
  {
    (forall j :: 0 <= j < |objs| ==> objs[j].Valid()) && Distinct(objs)
  }

  /** No element is listed twice. */
  predicate Distinct<T(==)>(xs: seq<T>) {
    forall j, k :: 0 <= j < k < |xs| ==> xs[j] != xs[k]
  }

  /** The position of the first animation without frames, or the length of
      the list when all have frames. */
  function FirstEmpty(objs: seq<Animation>): (n: nat)
    ensures n <= |objs|
    ensures forall j :: 0 <= j < n ==> |objs[j].frames| > 0
    ensures n < |objs| ==> |objs[n].frames| == 0
    decreases |objs|
  {
    if objs == [] then 0
    else if |objs[0].frames| == 0 then 0
    else 1 + FirstEmpty(objs[1..])
  }

  /** The outcome of reading the listed animations in order, from the states
      `before`: each one up to and including the first without frames has
      been read (that read throws and changes nothing), the rest are as they
      were, and the exception is the one that first read raises. */
  ghost predicate FramesRead<T>(objs: seq<Animation>, before: seq<AnimState>, now: int, r: Result<T, JavaException>)
    reads objs
    requires |before| == |objs|
  {
    var first := FirstEmpty(objs);
    StatesRead(objs, before, now)
    && (r.Success? <==> first == |objs|)
    && (r.Failure? ==> r.error == (if Due(objs[first].interval, before[first], now)
                                   then ArithmeticException else IndexOutOfBounds))
  }

  /** The states after the reads: every animation up to and including the
      first without frames read once, the rest untouched. */
  ghost predicate StatesRead(objs: seq<Animation>, before: seq<AnimState>, now: int)
    reads objs
    requires |before| == |objs|
  {
    var first := FirstEmpty(objs);
    forall j :: 0 <= j < |objs| ==>
      objs[j].State() == if j <= first then After(|objs[j].frames|, objs[j].interval, before[j], now) else before[j]
  }

  /** The substitutions of a successful read: each animation's token and the
      frame it now shows. */
  ghost function FramePairs(ids: seq<string>, objs: seq<Animation>): (pairs: seq<(string, string)>)
    reads objs
    requires |ids| == |objs| && forall j :: 0 <= j < |objs| ==> objs[j].Valid() && |objs[j].frames| > 0
    ensures |pairs| == |ids| && PercentTargets(pairs)
    ensures forall j :: 0 <= j < |ids| ==> pairs[j] == (AnimationToken(ids[j]), objs[j].Shown())
    decreases |ids|
  {
    if ids == [] then []
    else
      var n := |ids| - 1;
      FramePairs(ids[..n], objs[..n]) + [(AnimationToken(ids[n]), objs[n].Shown())]
  }

  /** One more substitution of the chain. */
  lemma ReplaceEachStep(text: string, pairs: seq<(string, string)>, i: nat)
    requires PercentTargets(pairs) && i < |pairs|
    ensures PercentTargets(pairs[..i]) && PercentTargets(pairs[..i + 1])
    ensures ReplaceEach(text, pairs[..i + 1]) == Strings.Replace(ReplaceEach(text, pairs[..i]), pairs[i].0, pairs[i].1)
  {
    assert pairs[..i + 1] == pairs[..i] + [pairs[i]];
    ReplaceEachSnoc(text, pairs[..i], pairs[i].0, pairs[i].1);
  }

  /** `FramePairs` is the sequence of each animation's token and shown frame. */
  lemma FramePairsAre(ids: seq<string>, objs: seq<Animation>, want: seq<(string, string)>)
    requires |ids| == |objs| == |want|
    requires forall j :: 0 <= j < |objs| ==> objs[j].Valid() && |objs[j].frames| > 0
    requires forall j :: 0 <= j < |want| ==> want[j] == (AnimationToken(ids[j]), objs[j].Shown())
    ensures FramePairs(ids, objs) == want
  {
  }

  /** The token of each id paired with the frame at the same position. */
  function TokenPairs(ids: seq<string>, frames: seq<string>): (pairs: seq<(string, string)>)
    requires |ids| == |frames|
    ensures |pairs| == |ids| && PercentTargets(pairs)
    ensures forall j :: 0 <= j < |ids| ==> pairs[j] == (AnimationToken(ids[j]), frames[j])
  {
    seq(|ids|, j requires 0 <= j < |ids| && |ids| == |frames| => (AnimationToken(ids[j]), frames[j]))
  }

  /** The reads of the animation loop of `replace`, in order: each entry's
      `getCurrentFrame()`, stopping at the first that throws. */
  method ReadFrames(objs: seq<Animation>, now: int) returns (r: Result<seq<string>, JavaException>)
    requires IsInt64(now) && Separate(objs)
    modifies objs
    ensures Separate(objs)
    ensures FramesRead(objs, old(StatesOf(objs)), now, r)
    ensures r.Success? <==> forall j :: 0 <= j < |objs| ==> |objs[j].frames| > 0
    ensures r.Success? ==> |r.value| == |objs| && forall j :: 0 <= j < |objs| ==> r.value[j] == objs[j].Shown()
  {
    ghost var before := StatesOf(objs);
    ghost var first := FirstEmpty(objs);
    ghost var after := seq(|objs|, j requires 0 <= j < |objs| => After(|objs[j].frames|, objs[j].interval, before[j], now));
    var frames: seq<string> := [];
    var failure: Option<JavaException> := None;
    var i := 0;
    while i < |objs| && failure.None?
      invariant 0 <= i <= |objs| && Distinct(objs)
      invariant failure.None? ==> (i <= first && |frames| == i
        && forall j :: 0 <= j < i ==> frames[j] == objs[j].frames[after[j].currentFrame])
      invariant failure.Some? ==> (i == first + 1
        && failure.value == if Due(objs[first].interval, before[first], now) then ArithmeticException else IndexOutOfBounds)
      invariant forall j :: 0 <= j < |objs| ==>
        (objs[j].Valid() && objs[j].State() == if j < i then after[j] else before[j])
    {
      assert forall j :: 0 <= j < |objs| && j != i ==> objs[j] != objs[i];
      var frame := objs[i].GetCurrentFrame(now);
      if frame.Failure? {
        failure := Some(frame.error);
      } else {
        frames := frames + [frame.value];
      }
      i := i + 1;
    }
    if failure.Some? {
      return Failure(failure.value);
    }
    r := Success(frames);
  }

  /** The animation loop of `replace`: every entry's token is replaced by
      the frame its animation returns, or the first exception escapes.
      Reading all entries before substituting is equivalent to alternating:
      substitution changes no animation, and an exception discards the text. */
  method ReplaceFrames(text: string, ids: seq<string>, objs: seq<Animation>, now: int)
    returns (r: Result<string, JavaException>)
    requires IsInt64(now) && |ids| == |objs| && Separate(objs)
    modifies objs
    ensures Separate(objs)
    ensures FramesRead(objs, old(StatesOf(objs)), now, r)
    ensures r.Success? <==> forall j :: 0 <= j < |objs| ==> |objs[j].frames| > 0
    ensures r.Success? ==> r.value == ReplaceEach(text, FramePairs(ids, objs))
  {
    var read := ReadFrames(objs, now);
    if read.Failure? {
      return Failure(read.error);
    }
    var frames := read.value;
    ghost var want := TokenPairs(ids, frames);
    var t := text;
    var i := 0;
    while i < |ids|
      invariant 0 <= i <= |ids| && t == ReplaceEach(text, want[..i])
      modifies {}
    {
      ReplaceEachStep(text, want, i);
      t := Strings.Replace(t, AnimationToken(ids[i]), frames[i]);
      i := i + 1;
    }
    assert want[..i] == want;
    FramePairsAre(ids, objs, want);
    r := Success(t);
  }

  /** The first position of `id` in the list, as a `HashMap.get` finds it. */
  function IndexOf(ids: seq<string>, id: string): (r: Option<nat>)
    ensures r.None? <==> id !in ids
    ensures r.Some? ==> r.value < |ids| && ids[r.value] == id
    decreases |ids|
  {
    if ids == [] then None
    else if ids[0] == id then Some(0)
    else match IndexOf(ids[1..], id)
      case None => None
      case Some(i) => Some(i + 1)
  }

  /** The custom substitutions, each registered function applied to the player. */
  function CustomPairs(custom: map<string, Player -> string>, order: seq<string>, player: Player): (pairs: seq<(string, string)>)
    requires forall i :: 0 <= i < |order| ==> order[i] in custom
    ensures |pairs| == |order| && PercentTargets(pairs)
    ensures forall i :: 0 <= i < |order| ==> pairs[i] == (PlaceholderToken(order[i]), custom[order[i]](player))
    decreases |order|
  {
    if order == [] then []
    else
      var last := order[|order| - 1];
      CustomPairs(custom, order[..|order| - 1], player) + [(PlaceholderToken(last), custom[last](player))]
  }

  /** The relational substitutions, each registered function applied to the pair. */
  function RelationalPairs(relational: map<string, (Player, Player) -> string>, order: seq<string>, viewer: Player, target: Player)
    : (pairs: seq<(string, string)>)
    requires forall i :: 0 <= i < |order| ==> order[i] in relational
    ensures |pairs| == |order| && PercentTargets(pairs)
    ensures forall i :: 0 <= i < |order| ==> pairs[i] == (RelationalToken(order[i]), relational[order[i]](viewer, target))
    decreases |order|
  {
    if order == [] then []
    else
      var last := order[|order| - 1];
      RelationalPairs(relational, order[..|order| - 1], viewer, target)
        + [(RelationalToken(last), relational[last](viewer, target))]
  }

  /** The custom half of `replace`: every custom token replaced by its
      function's value, in the map's iteration order `order`. */
  method ReplaceCustom(custom: map<string, Player -> string>, player: Player, text: string, order: seq<string>)
    returns (r: string)
    requires IsEnumeration(order, custom.Keys)
    ensures r == ReplaceEach(text, CustomPairs(custom, order, player))
  {
    r := text;
    ghost var pairs: seq<(string, string)> := [];
    var i := 0;
    while i < |order|
      invariant 0 <= i <= |order|
      invariant pairs == CustomPairs(custom, order[..i], player)
      invariant r == ReplaceEach(text, pairs)
    {
      var key := order[i];
      var value := custom[key](player);
      ReplaceEachSnoc(text, pairs, PlaceholderToken(key), value);
      pairs := pairs + [(PlaceholderToken(key), value)];
      r := Strings.Replace(r, PlaceholderToken(key), value);
      i := i + 1;
      assert order[..i][..i - 1] == order[..i - 1];
    }
    assert order[..i] == order;
  }

  /** The body of `replace` for a text that is not `null`: every animation
      is read once, in the map's iteration order `ids`, and its token
      replaced by the frame (`ReplaceFrames`); then every custom token is
      replaced by its function's value, in the custom map's iteration
      order `order`. */
  method ReplaceAll(text: string, ids: seq<string>, objs: seq<Animation>,
                    custom: map<string, Player -> string>, order: seq<string>, player: Player, now: int)
    returns (r: Result<string, JavaException>)
    requires IsInt64(now) && |ids| == |objs| && Separate(objs)
    requires IsEnumeration(order, custom.Keys)
    modifies objs
    ensures Separate(objs)
    ensures FramesRead(objs, old(StatesOf(objs)), now, r)
    ensures r.Success? <==> forall j :: 0 <= j < |objs| ==> |objs[j].frames| > 0
    ensures r.Success? ==> r.value == ReplaceEach(ReplaceEach(text, FramePairs(ids, objs)), CustomPairs(custom, order, player))
  {
    r := ReplaceFrames(text, ids, objs, now);
    if r.Success? {
      var t := ReplaceCustom(custom, player, r.value, order);
      r := Success(t);
    }
  }

  /** The loading loop of `reload`: one new animation per configured id,
      in the order `ids`, each at frame 0 at time `now`. */
  method NewAnimations(ids: seq<string>, config: map<string, (seq<string>, int)>, now: int)
    returns (objs: seq<Animation>)
    requires IsInt64(now) && forall i :: 0 <= i < |ids| ==> ids[i] in config
    ensures |objs| == |ids| && Separate(objs)
    ensures forall i :: 0 <= i < |ids| ==>
      (fresh(objs[i])
       && objs[i].frames == config[ids[i]].0 && objs[i].interval == config[ids[i]].1
       && objs[i].State() == AnimState(0, now))
  {
    objs := [];
    var i := 0;
    while i < |ids|
      invariant 0 <= i <= |ids| && |objs| == i
      invariant forall j :: 0 <= j < i ==>
        (fresh(objs[j]) && objs[j].Valid()
         && objs[j].frames == config[ids[j]].0 && objs[j].interval == config[ids[j]].1
         && objs[j].State() == AnimState(0, now))
      invariant Distinct(objs)
    {
      var a := new Animation(config[ids[i]].0, config[ids[i]].1, now);
      objs := objs + [a];
      i := i + 1;
    }
  }

  // ---------------------------------------------------------------------
  // The manager
  // ---------------------------------------------------------------------

  class PlaceholderManager {
    var customPlaceholders: map<string, Player -> string>
    var relationalPlaceholders: map<string, (Player, Player) -> string>
    /** The `animations` map, as its entries in iteration order. */
    var animationIds: seq<string>
    var animationValues: seq<Animation>

    /** Entries have distinct keys, and each key owns its own valid animation. */
    ghost predicate Valid()
      reads this, animationValues
    {
      |animationIds| == |animationValues| && Distinct(animationIds) && Separate(animationValues)
    }

    constructor()
      ensures Valid()
      ensures customPlaceholders == map[] && relationalPlaceholders == map[]
      ensures animationIds == [] && animationValues == []
    {
      customPlaceholders := map[];
      relationalPlaceholders := map[];
      animationIds := [];
      animationValues := [];
    }

    /** `registerPlaceholder`: adds or overwrites one entry. */
    method RegisterPlaceholder(id: string, f: Player -> string)
      modifies this
      ensures customPlaceholders == old(customPlaceholders)[id := f]
      ensures relationalPlaceholders == old(relationalPlaceholders)
      ensures animationIds == old(animationIds) && animationValues == old(animationValues)
    {
      customPlaceholders := customPlaceholders[id := f];
    }

    /** `registerRelationalPlaceholder`: adds or overwrites one entry. */
    method RegisterRelationalPlaceholder(id: string, f: (Player, Player) -> string)
      modifies this
      ensures relationalPlaceholders == old(relationalPlaceholders)[id := f]
      ensures customPlaceholders == old(customPlaceholders)
      ensures animationIds == old(animationIds) && animationValues == old(animationValues)
    {
      relationalPlaceholders := relationalPlaceholders[id := f];
    }

    /** `unregisterPlaceholder`: removes the id from both registries. */
    method UnregisterPlaceholder(id: string)
      modifies this
      ensures customPlaceholders == old(customPlaceholders) - {id}
      ensures relationalPlaceholders == old(relationalPlaceholders) - {id}
      ensures animationIds == old(animationIds) && animationValues == old(animationValues)
    {
      customPlaceholders := customPlaceholders - {id};
      relationalPlaceholders := relationalPlaceholders - {id};
    }

    /** `replace(player, text)`: `null` gives ""; any other text goes
        through `ReplaceAll` with this manager's maps. */
    method Replace(player: Player, text: Option<string>, customOrder: seq<string>, now: int)
      returns (r: Result<string, JavaException>)
      requires Valid() && IsInt64(now)
      requires IsEnumeration(customOrder, customPlaceholders.Keys)
      modifies animationValues
      ensures Valid()
      ensures text.None? ==> r == Success("") && unchanged(animationValues)
      ensures text.Some? ==> FramesRead(animationValues, old(StatesOf(animationValues)), now, r)
      ensures text.Some? && r.Success? ==>
        r.value == ReplaceEach(ReplaceEach(text.value, FramePairs(animationIds, animationValues)),
                               CustomPairs(customPlaceholders, customOrder, player))
    {
      if text.None? {
        return Success("");
      }
      var ids, objs, custom := animationIds, animationValues, customPlaceholders;
      r := ReplaceAll(text.value, ids, objs, custom, customOrder, player, now);
      assert animationIds == ids && animationValues == objs && customPlaceholders == custom;
      assert Valid() by {
        assert |ids| == |objs| && Distinct(ids) && Separate(objs);
      }
    }

    /** `replaceRelational(viewer, target, text)`: `null` gives ""; otherwise
        every relational token is replaced, in the map's iteration order
        `order`. Nothing changes. */
    method ReplaceRelational(viewer: Player, target: Player, text: Option<string>, order: seq<string>)
      returns (r: string)
      requires IsEnumeration(order, relationalPlaceholders.Keys)
      ensures text.None? ==> r == ""
      ensures text.Some? ==> r == ReplaceEach(text.value, RelationalPairs(relationalPlaceholders, order, viewer, target))
    {
      if text.None? {
        return "";
      }
      r := text.value;
      ghost var pairs: seq<(string, string)> := [];
      var i := 0;
      while i < |order|
        invariant 0 <= i <= |order|
        invariant pairs == RelationalPairs(relationalPlaceholders, order[..i], viewer, target)
        invariant r == ReplaceEach(text.value, pairs)
      {
        var key := order[i];
        var value := relationalPlaceholders[key](viewer, target);
        ReplaceEachSnoc(text.value, pairs, RelationalToken(key), value);
        pairs := pairs + [(RelationalToken(key), value)];
        r := Strings.Replace(r, RelationalToken(key), value);
        i := i + 1;
        assert order[..i][..i - 1] == order[..i - 1];
      }
      assert order[..i] == order;
    }

    /** `reload`: the animation map is cleared and refilled from the
        configured animations, visited in the order `ids`; each starts at
        frame 0 at time `now`. The registries survive. */
    method Reload(ids: seq<string>, config: map<string, (seq<string>, int)>, now: int)
      requires IsInt64(now) && IsEnumeration(ids, config.Keys)
      modifies this
      ensures Valid()
      ensures animationIds == ids && |animationValues| == |ids|
      ensures forall i :: 0 <= i < |ids| ==>
        (fresh(animationValues[i])
         && animationValues[i].frames == config[ids[i]].0 && animationValues[i].interval == config[ids[i]].1
         && animationValues[i].State() == AnimState(0, now))
      ensures customPlaceholders == old(customPlaceholders)
      ensures relationalPlaceholders == old(relationalPlaceholders)
    {
      var objs := NewAnimations(ids, config, now);
      animationIds := ids;
      animationValues := objs;
    }

    /** `shutdown`: all three maps are emptied. */
    method Shutdown()
      modifies this
      ensures Valid()
      ensures customPlaceholders == map[] && relationalPlaceholders == map[]
      ensures animationIds == [] && animationValues == []
    {
      customPlaceholders := map[];
      relationalPlaceholders := map[];
      animationIds := [];
      animationValues := [];
    }

    /** `onPlaceholderRequest` of the `dztablist` expansion. A `null` player
        gives "", `custom_<k>` the registered value or "", `animation_<k>` a
        read of that animation or "", and any other identifier `null`
        (`None`): the request is not handled. */
    method OnPlaceholderRequest(player: Option<Player>, identifier: string, now: int)
      returns (r: Result<Option<string>, JavaException>)
      requires Valid() && IsInt64(now)
      modifies animationValues
      ensures Valid()
      ensures player.None? ==> r == Success(Some("")) && unchanged(animationValues)
      ensures player.Some? && StartsWith(identifier, "custom_") ==>
        unchanged(animationValues)
        && r == Success(Some(if identifier[7..] in customPlaceholders
                             then customPlaceholders[identifier[7..]](player.value) else ""))
      ensures player.Some? && !StartsWith(identifier, "custom_") && StartsWith(identifier, "animation_") ==>
        match IndexOf(animationIds, identifier[10..])
        case None => r == Success(Some("")) && unchanged(animationValues)
        case Some(i) =>
          var a := animationValues[i];
          var read := FrameRead(a.frames, a.interval, old(a.State()), now);
          a.State() == After(|a.frames|, a.interval, old(a.State()), now)
          && r == (if read.Success? then Success(Some(read.value)) else Failure(read.error))
          && forall j :: 0 <= j < |animationValues| && j != i ==> unchanged(animationValues[j])
      ensures player.Some? && !StartsWith(identifier, "custom_") && !StartsWith(identifier, "animation_") ==>
        r == Success(None) && unchanged(animationValues)
    {
      if player.None? {
        return Success(Some(""));
      }
      if StartsWith(identifier, "custom_") {
        var key := identifier[7..];
        if key in customPlaceholders {
          return Success(Some(customPlaceholders[key](player.value)));
        }
        return Success(Some(""));
      }
      if StartsWith(identifier, "animation_") {
        var key := identifier[10..];
        var found := IndexOf(animationIds, key);
        if found.Some? {
          var frame := animationValues[found.value].GetCurrentFrame(now);
          if frame.Failure? {
            return Failure(frame.error);
          }
          return Success(Some(frame.value));
        }
        return Success(Some(""));
      }
      return Success(None);
    }
  }
}
