/**
 * The animation driver run inside Blender (render_animation.py): it binds each
 * schedule row to the scene object named by its Activity, hides every bound
 * object at frame 0, gives each object a material of its own, keyframes the
 * row's visibility and colour, renders one still per event frame and writes
 * the ffmpeg concat manifest whose durations are the gaps between events.
 *
 * The Blender scene is a `Scene` object whose maps the driver updates in place.
 */
module Animation {
  import opened Outcomes
  import opened Strings
  import opened Frames

  /** One row of the compiler's hand-off file, already typed (render_animation.py:52-59). */
  datatype Row = Row(activity: string, startFrame: int, endFrame: int, r: real, g: real, b: real)

  datatype Rgba = Rgba(r: real, g: real, b: real, a: real)

  /** The grey an activity shows outside its own span. */
  const Neutral: Rgba := Rgba(0.7, 0.7, 0.7, 1.0)

  /** Base colour of the Principled BSDF of a freshly created node material. */
  const DefaultBase: Rgba := Rgba(0.8, 0.8, 0.8, 1.0)

  /** `scene.render.fps` as the driver sets it. */
  const SceneFps: int := 10

  function RowColor(row: Row): Rgba
  {
    Rgba(row.r, row.g, row.b, 1.0)
  }

  type MaterialId = nat

  /**
   * A mesh object: its two hide flags, its material slots, and the keyframes
   * recorded on the two flags (frame to value; a later insert at the same
   * frame replaces the earlier one).
   */
  datatype SceneObject = SceneObject(
    hideRender: bool,
    hideViewport: bool,
    slots: seq<MaterialId>,
    hideRenderKeys: map<int, bool>,
    hideViewportKeys: map<int, bool>)

  /**
   * A material: its user count, whether its node tree has a "Principled BSDF"
   * node, that node's current base colour and the base-colour keyframes.
   */
  datatype Material = Material(users: nat, hasBsdf: bool, baseColor: Rgba, colorKeys: map<int, Rgba>)

  /** One `bpy.ops.render.render(write_still=True)` at a frame, to a path. */
  datatype RenderCall = RenderCall(frame: int, path: string)

  datatype DriverError =
    | ObjectNotFound(name: string)   // the RuntimeError of render_animation.py:68
    | MissingBsdf(name: string)      // the KeyError of render_animation.py:103
    | NoEventFrames                  // the IndexError of render_animation.py:171

  // ---------------------------------------------------------------------
  // material sharing

  /** The objects whose first slot holds material `m`. */
  ghost function SharersIn(objs: map<string, SceneObject>, m: MaterialId): set<string>
  {
    set n | n in objs && |objs[n].slots| > 0 && objs[n].slots[0] == m
  }

  predicate SlotsKnown(o: SceneObject, mats: map<MaterialId, Material>)
  {
    forall k :: 0 <= k < |o.slots| ==> o.slots[k] in mats
  }

  /**
   * Every slot names an existing material, every material id was handed out,
   * and no material has fewer users than objects holding it in their first slot.
   */
  ghost predicate SceneInvariant(objs: map<string, SceneObject>, mats: map<MaterialId, Material>, next: nat)
  {
    && (forall n :: n in objs ==> SlotsKnown(objs[n], mats))
    && (forall m :: m in mats ==> m < next)
    && (forall m :: m in mats ==> |SharersIn(objs, m)| <= mats[m].users)
  }

  /** Replacing one object changes the sharers of a material only through that object's first slot. */
  lemma ReplaceObjectSharers(objs: map<string, SceneObject>, name: string, o: SceneObject, m: MaterialId)
    requires name in objs
    ensures SharersIn(objs[name := o], m)
            == (SharersIn(objs, m) - {name}) + (if |o.slots| > 0 && o.slots[0] == m then {name} else {})
  {
  }

  /** An object that keeps its slots leaves every material's sharers as they were. */
  lemma SameSlotsSameSharers(objs: map<string, SceneObject>, name: string, o: SceneObject)
    requires name in objs && o.slots == objs[name].slots
    ensures forall m :: SharersIn(objs[name := o], m) == SharersIn(objs, m)
  {
    forall m ensures SharersIn(objs[name := o], m) == SharersIn(objs, m) {
      ReplaceObjectSharers(objs, name, o, m);
    }
  }

  /** A material held by at most one object and by `name` is held by `name` alone. */
  lemma SoleSharer(s: set<string>, name: string)
    requires name in s && |s| <= 1
    ensures s == {name}
  {
    var rest := s - {name};
    assert |s| == |rest| + 1;
  }

  // ---------------------------------------------------------------------
  // keyframe schedules

  /** An object hidden for render and viewport, with both flags keyframed at frame 0 (render_animation.py:76-79). */
  function Hidden(o: SceneObject): (h: SceneObject)
  {
    o.(hideRender := true, hideViewport := true,
       hideRenderKeys := o.hideRenderKeys[0 := true],
       hideViewportKeys := o.hideViewportKeys[0 := true])
  }

  /** Hiding sets both flags and keys them hidden at frame 0; other keys and the slots stay. */
  lemma HiddenSpec(o: SceneObject)
    ensures Hidden(o).hideRender && Hidden(o).hideViewport
    ensures Hidden(o).hideRenderKeys.Keys == o.hideRenderKeys.Keys + {0} && Hidden(o).hideRenderKeys[0]
    ensures Hidden(o).hideViewportKeys.Keys == o.hideViewportKeys.Keys + {0} && Hidden(o).hideViewportKeys[0]
    ensures forall f :: f in o.hideRenderKeys && f != 0 ==> Hidden(o).hideRenderKeys[f] == o.hideRenderKeys[f]
    ensures forall f :: f in o.hideViewportKeys && f != 0 ==> Hidden(o).hideViewportKeys[f] == o.hideViewportKeys[f]
    ensures Hidden(o).slots == o.slots
  {
  }

  /** An object shown for render from frame `s` on, keyframed at `s` (render_animation.py:120-122). */
  function Shown(o: SceneObject, s: int): (h: SceneObject)
  {
    o.(hideRender := false, hideRenderKeys := o.hideRenderKeys[s := false])
  }

  /** Showing clears the render flag and keys it visible at `s`; other keys, the viewport flag and the slots stay. */
  lemma ShownSpec(o: SceneObject, s: int)
    ensures !Shown(o, s).hideRender && Shown(o, s).hideViewport == o.hideViewport
    ensures Shown(o, s).hideRenderKeys.Keys == o.hideRenderKeys.Keys + {s} && !Shown(o, s).hideRenderKeys[s]
    ensures forall f :: f in o.hideRenderKeys && f != s ==> Shown(o, s).hideRenderKeys[f] == o.hideRenderKeys[f]
    ensures Shown(o, s).hideViewportKeys == o.hideViewportKeys && Shown(o, s).slots == o.slots
  {
  }

  /**
   * The base-colour keys one row leaves (render_animation.py:113-138): neutral
   * at s-1 when s > 2, the row colour at s and at e-1, neutral at e, each later
   * insert replacing an earlier one at the same frame.
   */
  function ColorSchedule(keys: map<int, Rgba>, s: int, e: int, c: Rgba): (k: map<int, Rgba>)
  {
    var pre := if s > 2 then keys[s - 1 := Neutral] else keys;
    pre[s := c][e - 1 := c][e := Neutral]
  }

  /** Which frames a row keys and with which colour; every other frame keeps its key. */
  lemma ColorScheduleSpec(keys: map<int, Rgba>, s: int, e: int, c: Rgba)
    ensures var k := ColorSchedule(keys, s, e, c);
            k.Keys == keys.Keys + {s, e - 1, e} + (if s > 2 then {s - 1} else {})
    ensures var k := ColorSchedule(keys, s, e, c);
            && k[e] == Neutral && k[e - 1] == c
            && (s != e ==> k[s] == c)
            && (s == e ==> k[s] == Neutral && k[s - 1] == c)
            && (s > 2 && s != e ==> k[s - 1] == Neutral)
    ensures var k := ColorSchedule(keys, s, e, c);
            forall f :: f in keys && f != s && f != e - 1 && f != e && (s <= 2 || f != s - 1) ==> k[f] == keys[f]
  {
  }

  /** Hiding one object keeps the scene invariant. */
  lemma HideKeepsInvariant(objs: map<string, SceneObject>, mats: map<MaterialId, Material>, next: nat, name: string)
    requires SceneInvariant(objs, mats, next) && name in objs
    ensures SceneInvariant(objs[name := Hidden(objs[name])], mats, next)
  {
    SameSlotsSameSharers(objs, name, Hidden(objs[name]));
    var objs' := objs[name := Hidden(objs[name])];
    forall n | n in objs' ensures SlotsKnown(objs'[n], mats) {
      assert objs'[n].slots == objs[n].slots;
    }
  }

  /** Exactly the objects among the first `i` names are hidden; every object is otherwise as in `objs0`. */
  ghost predicate HiddenSoFar(objs0: map<string, SceneObject>, objs: map<string, SceneObject>, names: seq<string>, i: nat)
    requires i <= |names|
  {
    && objs.Keys == objs0.Keys
    && forall n :: n in objs ==> objs[n] == if n in names[..i] then Hidden(objs0[n]) else objs0[n]
  }

  lemma HiddenSoFarStep(objs0: map<string, SceneObject>, objs: map<string, SceneObject>, names: seq<string>, i: nat)
    requires i < |names| && names[i] in objs && HiddenSoFar(objs0, objs, names, i)
    ensures HiddenSoFar(objs0, objs[names[i] := Hidden(objs[names[i]])], names, i + 1)
  {
    assert names[..i + 1] == names[..i] + [names[i]];
  }

  // ---------------------------------------------------------------------
  // event frames

  /** Every Start Frame and End Frame of the rows. */
  function EventSet(rows: seq<Row>): set<int>
    decreases |rows|
  {
    if rows == [] then {}
    else
      var n := |rows| - 1;
      EventSet(rows[..n]) + {rows[n].startFrame, rows[n].endFrame}
  }

  /** A frame is an event frame exactly when some row starts or ends there. */
  lemma {:induction false} EventSetMembers(rows: seq<Row>, f: int)
    ensures f in EventSet(rows) <==> exists i :: 0 <= i < |rows| && (rows[i].startFrame == f || rows[i].endFrame == f)
    decreases |rows|
  {
    if rows != [] {
      var n := |rows| - 1;
      EventSetMembers(rows[..n], f);
      if f in EventSet(rows[..n]) {
        var i :| 0 <= i < n && (rows[..n][i].startFrame == f || rows[..n][i].endFrame == f);
        assert rows[i] == rows[..n][i];
      }
      if exists i :: 0 <= i < |rows| && (rows[i].startFrame == f || rows[i].endFrame == f) {
        var i :| 0 <= i < |rows| && (rows[i].startFrame == f || rows[i].endFrame == f);
        if i < n {
          assert rows[..n][i] == rows[i];
        }
      }
    }
  }

  /** Each row adds at most two frames to the event set. */
  lemma {:induction false} EventSetSize(rows: seq<Row>)
    ensures |EventSet(rows)| <= 2 * |rows|
    decreases |rows|
  {
    if rows != [] {
      var n := |rows| - 1;
      EventSetSize(rows[..n]);
      var pair := {rows[n].startFrame, rows[n].endFrame};
      assert |pair| <= 2;
      assert EventSet(rows) == EventSet(rows[..n]) + pair;
      assert |EventSet(rows[..n]) + pair| <= |EventSet(rows[..n])| + |pair|;
    }
  }

  predicate StrictlyIncreasing(s: seq<int>)
  {
    forall i, j :: 0 <= i < j < |s| ==> s[i] < s[j]
  }

  /** Every non-empty finite set of frames has a least element. */
  lemma {:induction false} SetHasMin(s: set<int>)
    requires s != {}
    ensures exists m :: m in s && forall y :: y in s ==> m <= y
    decreases |s|
  {
    if forall y :: y !in s {
      assert false;
    }
    var x :| x in s;
    if s != {x} {
      var rest := s - {x};
      SetHasMin(rest);
      var m :| m in rest && forall y :: y in rest ==> m <= y;
      var least := if x < m then x else m;
      forall y | y in s ensures least <= y {
        if y != x {
          assert y in rest;
        }
      }
    }
  }

  // ---------------------------------------------------------------------
  // render naming and the concat manifest

  /** The renders of the event frames, in order, into `framesDir` (render_animation.py:149-152). */
  function RenderLog(ev: seq<int>, framesDir: string): (log: seq<RenderCall>)
    ensures |log| == |ev|
    ensures forall i :: 0 <= i < |ev| ==> log[i] == RenderCall(ev[i], JoinPath(framesDir, FrameFileName(ev[i])))
    decreases |ev|
  {
    if ev == [] then []
    else
      var n := |ev| - 1;
      var prefix := RenderLog(ev[..n], framesDir);
      assert forall i :: 0 <= i < n ==> ev[..n][i] == ev[i];
      prefix + [RenderCall(ev[n], JoinPath(framesDir, FrameFileName(ev[n])))]
  }

  /** The manifest entry of a rendered frame, relative to the run directory. */
  function ManifestPath(frame: int): string
  {
    "frames/" + FrameFileName(frame)
  }

  /** The i-th duration: the gap to the next event frame, in seconds at `fps`. */
  function Gap(ev: seq<int>, i: nat, fps: int): real
    requires i + 1 < |ev| && fps > 0
  {
    (ev[i + 1] - ev[i]) as real / fps as real
  }

  function Gaps(ev: seq<int>, fps: int): (g: seq<real>)
    requires |ev| >= 1 && fps > 0
    ensures |g| == |ev| - 1
  {
    seq(|ev| - 1, i requires 0 <= i < |ev| - 1 => Gap(ev, i, fps))
  }

  /** Each rendered still is named so that the compiler's parse reads back its frame, and no two stills share a path. */
  lemma RenderNames(ev: seq<int>, framesDir: string)
    requires StrictlyIncreasing(ev)
    ensures forall i :: 0 <= i < |ev| ==>
              RenderLog(ev, framesDir)[i].path == JoinPath(framesDir, FrameFileName(ev[i]))
              && FrameIndexOf(FrameFileName(ev[i])) == Some(ev[i])
    ensures forall i, j :: 0 <= i < j < |ev| ==> RenderLog(ev, framesDir)[i].path != RenderLog(ev, framesDir)[j].path
  {
    var log := RenderLog(ev, framesDir);
    forall i | 0 <= i < |ev| ensures FrameIndexOf(FrameFileName(ev[i])) == Some(ev[i]) {
      FrameNameRoundTrip(ev[i]);
    }
    forall i, j | 0 <= i < j < |ev| ensures log[i].path != log[j].path {
      if log[i].path == log[j].path {
        JoinPathInjective(framesDir, FrameFileName(ev[i]), FrameFileName(ev[j]));
        FrameFileNameInjective(ev[i], ev[j]);
        assert false;
      }
    }
  }

  /** The manifest names each event frame's still once, so its file entries are distinct. */
  lemma ManifestPathsDistinct(ev: seq<int>)
    requires StrictlyIncreasing(ev)
    ensures forall i, j :: 0 <= i < j < |ev| ==> ManifestPath(ev[i]) != ManifestPath(ev[j])
  {
    forall i, j | 0 <= i < j < |ev| ensures ManifestPath(ev[i]) != ManifestPath(ev[j]) {
      if ManifestPath(ev[i]) == ManifestPath(ev[j]) {
        assert FrameFileName(ev[i]) == ManifestPath(ev[i])[7..];
        assert FrameFileName(ev[j]) == ManifestPath(ev[j])[7..];
        FrameFileNameInjective(ev[i], ev[j]);
        assert false;
      }
    }
  }

  /** Between strictly increasing event frames every duration is positive. */
  lemma GapsPositive(ev: seq<int>, fps: int)
    requires StrictlyIncreasing(ev) && |ev| >= 1 && fps > 0
    ensures forall i :: 0 <= i < |ev| - 1 ==> Gaps(ev, fps)[i] > 0.0
  {
    forall i | 0 <= i < |ev| - 1 ensures Gaps(ev, fps)[i] > 0.0 {
      PositiveQuotient((ev[i + 1] - ev[i]) as real, fps as real);
    }
  }

  lemma PositiveQuotient(a: real, b: real)
    requires a > 0.0 && b > 0.0
    ensures a / b > 0.0
  {
    assert (a / b) * b == a;
  }

  lemma QuotientSum(a: real, b: real, f: real)
    requires f > 0.0
    ensures a / f + b / f == (a + b) / f
  {
    assert (a / f + b / f) * f == a + b;
  }

  /** The durations telescope: together they last from the first event frame to the last. */
  lemma {:induction false} GapsSum(ev: seq<int>, fps: int)
    requires |ev| >= 1 && fps > 0
    ensures Sum(Gaps(ev, fps)) == (ev[|ev| - 1] - ev[0]) as real / fps as real
    decreases |ev|
  {
    if |ev| == 1 {
      assert Gaps(ev, fps) == [];
      assert (ev[0] - ev[0]) as real == 0.0;
    } else {
      var tail := ev[1..];
      GapsSum(tail, fps);
      assert Gaps(ev, fps)[1..] == Gaps(tail, fps);
      QuotientSum((ev[1] - ev[0]) as real, (ev[|ev| - 1] - ev[1]) as real, fps as real);
    }
  }

  /** The material an object paints once it owns one: a new node material, or its first slot's material as a single-user copy. */
  function OwnedMaterial(o: SceneObject, mats: map<MaterialId, Material>): (mat: Material)
    requires SlotsKnown(o, mats)
    ensures mat.users == 1
    ensures |o.slots| == 0 ==> mat.hasBsdf && mat.colorKeys == map[]
    ensures |o.slots| > 0 ==> mat.colorKeys == mats[o.slots[0]].colorKeys && mat.hasBsdf == mats[o.slots[0]].hasBsdf
  {
    if |o.slots| == 0 then Material(1, true, DefaultBase, map[]) else mats[o.slots[0]].(users := 1)
  }

  /** A material after one row's colour keys, with the neutral grey left as its current value. */
  function Painted(mat: Material, row: Row): Material
  {
    mat.(baseColor := Neutral, colorKeys := ColorSchedule(mat.colorKeys, row.startFrame, row.endFrame, RowColor(row)))
  }

  /** The object `name` holds a material no other object holds, and nothing else uses it. */
  ghost predicate Owns(objs: map<string, SceneObject>, mats: map<MaterialId, Material>, name: string)
  {
    && name in objs
    && |objs[name].slots| > 0
    && objs[name].slots[0] in mats
    && mats[objs[name].slots[0]].users == 1
    && SharersIn(objs, objs[name].slots[0]) == {name}
  }

  /** No object holds a material id that has not been handed out yet. */
  lemma FreshIdUnshared(objs: map<string, SceneObject>, mats: map<MaterialId, Material>, next: nat)
    requires SceneInvariant(objs, mats, next)
    ensures SharersIn(objs, next) == {}
  {
    forall n | n in objs && |objs[n].slots| > 0 ensures objs[n].slots[0] != next {
      assert SlotsKnown(objs[n], mats);
    }
  }

  /** Giving `name`, which holds no material, the new material `next` makes `name` its only holder and leaves the other holders. */
  lemma CreateSharers(objs: map<string, SceneObject>, mats: map<MaterialId, Material>, next: nat, name: string)
    requires SceneInvariant(objs, mats, next) && name in objs && |objs[name].slots| == 0
    ensures var objs' := objs[name := objs[name].(slots := [next])];
            && SharersIn(objs', next) == {name}
            && forall k :: k != next ==> SharersIn(objs', k) == SharersIn(objs, k)
  {
    var objs' := objs[name := objs[name].(slots := [next])];
    FreshIdUnshared(objs, mats, next);
    forall k ensures SharersIn(objs', k) == (SharersIn(objs, k) - {name}) + (if k == next then {name} else {}) {
      ReplaceObjectSharers(objs, name, objs'[name], k);
    }
  }

  /** Giving `name`, which holds no material, the new material `next` keeps the scene invariant. */
  lemma CreateMaterialKeepsInvariant(
    objs: map<string, SceneObject>, mats: map<MaterialId, Material>, next: nat, name: string, mat: Material)
    requires SceneInvariant(objs, mats, next) && name in objs && |objs[name].slots| == 0 && mat.users == 1
    ensures var objs' := objs[name := objs[name].(slots := [next])];
            && SceneInvariant(objs', mats[next := mat], next + 1)
            && SharersIn(objs', next) == {name}
            && forall k :: k != next ==> SharersIn(objs', k) == SharersIn(objs, k)
  {
    var objs' := objs[name := objs[name].(slots := [next])];
    var mats' := mats[next := mat];
    CreateSharers(objs, mats, next, name);
    forall k | k in mats' ensures |SharersIn(objs', k)| <= mats'[k].users {
      if k != next {
        assert SharersIn(objs', k) == SharersIn(objs, k);
      }
    }
    forall n | n in objs' ensures SlotsKnown(objs'[n], mats') {
      assert SlotsKnown(objs[n], mats);
    }
  }

  /** Moving `name`'s first slot from a shared material to its copy `next` keeps the scene invariant. */
  lemma CopyMaterialKeepsInvariant(
    objs: map<string, SceneObject>, mats: map<MaterialId, Material>, next: nat, name: string, mat: Material)
    requires SceneInvariant(objs, mats, next) && name in objs && |objs[name].slots| > 0 && mat.users == 1
    requires objs[name].slots[0] in mats && mats[objs[name].slots[0]].users > 1
    ensures var k0 := objs[name].slots[0];
            var objs' := objs[name := objs[name].(slots := objs[name].slots[0 := next])];
            var mats' := mats[k0 := mats[k0].(users := mats[k0].users - 1)][next := mat];
            SceneInvariant(objs', mats', next + 1) && SharersIn(objs', next) == {name}
  {
    var k0 := objs[name].slots[0];
    var objs' := objs[name := objs[name].(slots := objs[name].slots[0 := next])];
    var mats' := mats[k0 := mats[k0].(users := mats[k0].users - 1)][next := mat];
    CopySharers(objs, mats, next, name);
    forall k | k in mats' ensures |SharersIn(objs', k)| <= mats'[k].users {
      if k != next && k != k0 {
        assert SharersIn(objs', k) == SharersIn(objs, k);
      }
    }
    forall n | n in objs' ensures SlotsKnown(objs'[n], mats') {
      assert SlotsKnown(objs[n], mats);
    }
  }

  /** How moving `name`'s first slot to `next` changes who holds each material. */
  lemma CopySharers(objs: map<string, SceneObject>, mats: map<MaterialId, Material>, next: nat, name: string)
    requires SceneInvariant(objs, mats, next) && name in objs && |objs[name].slots| > 0
    ensures var k0 := objs[name].slots[0];
            var objs' := objs[name := objs[name].(slots := objs[name].slots[0 := next])];
            && SharersIn(objs', next) == {name}
            && |SharersIn(objs', k0)| == |SharersIn(objs, k0)| - 1
            && forall k :: k != next && k != k0 ==> SharersIn(objs', k) == SharersIn(objs, k)
  {
    var k0 := objs[name].slots[0];
    var objs' := objs[name := objs[name].(slots := objs[name].slots[0 := next])];
    FreshIdUnshared(objs, mats, next);
    forall k ensures SharersIn(objs', k) == (SharersIn(objs, k) - {name}) + (if k == next then {name} else {}) {
      ReplaceObjectSharers(objs, name, objs'[name], k);
    }
    assert name in SharersIn(objs, k0);
    assert k0 != next by {
      assert SlotsKnown(objs[name], mats);
    }
  }

  /**
   * Between two states, every material other than `m` that `name` did not
   * hold keeps its holders and its record; `m` is new or was `name`'s; and
   * the materials kept are exactly as they were, except that the shared
   * material `name` held in its first slot, when `m` replaced it, lost one user.
   */
  ghost predicate OthersKept(
    objs: map<string, SceneObject>, mats: map<MaterialId, Material>,
    objs': map<string, SceneObject>, mats': map<MaterialId, Material>, name: string, m: MaterialId)
  {
    && (m in mats ==> name in SharersIn(objs, m))
    && (forall k :: name !in SharersIn(objs, k) && k != m ==>
         && SharersIn(objs', k) == SharersIn(objs, k)
         && (k in mats ==> k in mats' && mats'[k] == mats[k]))
    && name in objs
    && MaterialsKept(objs[name].slots, mats, mats', m)
  }

  /**
   * `mats'` holds the materials of `mats` and `m`; every material other than
   * `m` keeps its record, except `s0[0]` when `m` replaced it: that one was
   * shared and keeps everything but one user.
   */
  ghost predicate MaterialsKept(s0: seq<MaterialId>, mats: map<MaterialId, Material>, mats': map<MaterialId, Material>, m: MaterialId)
  {
    && mats'.Keys == mats.Keys + {m}
    && (forall k :: k in mats && k != m && (|s0| == 0 || k != s0[0]) ==> mats'[k] == mats[k])
    && (|s0| > 0 && s0[0] in mats && s0[0] != m ==>
          mats[s0[0]].users > 1 && mats'[s0[0]] == mats[s0[0]].(users := mats[s0[0]].users - 1))
  }

  /** Another object's sole material survives a step that kept the others. */
  lemma OwnsKept(
    objs: map<string, SceneObject>, mats: map<MaterialId, Material>,
    objs': map<string, SceneObject>, mats': map<MaterialId, Material>, name: string, m: MaterialId, n: string)
    requires OthersKept(objs, mats, objs', mats', name, m)
    requires Owns(objs, mats, n) && n != name && n in objs' && objs'[n] == objs[n]
    ensures Owns(objs', mats', n)
  {
    var k := objs[n].slots[0];
    assert name !in SharersIn(objs, k);
  }

  /** A scene's objects and materials with the next free material id, and the material the step chose. */
  datatype MaterialStep = MaterialStep(
    objs: map<string, SceneObject>, mats: map<MaterialId, Material>, next: MaterialId, m: MaterialId)

  /** The material step of render_animation.py:90-100 on the scene's maps. */
  function OwnStep(objs: map<string, SceneObject>, mats: map<MaterialId, Material>, next: MaterialId, name: string): (st: MaterialStep)
    requires SceneInvariant(objs, mats, next) && name in objs
    ensures name in st.objs && st.m in st.mats
  {
    var o := objs[name];
    if |o.slots| == 0 then
      MaterialStep(objs[name := o.(slots := [next])], mats[next := Material(1, true, DefaultBase, map[])], next + 1, next)
    else
      var k0 := o.slots[0];
      assert SlotsKnown(o, mats);
      if mats[k0].users > 1 then
        MaterialStep(objs[name := o.(slots := o.slots[0 := next])],
                     mats[k0 := mats[k0].(users := mats[k0].users - 1)][next := mats[k0].(users := 1)],
                     next + 1, next)
      else MaterialStep(objs, mats, next, k0)
  }

  /**
   * What the material step promises: `name` alone holds the chosen material,
   * which has one user and the colour keys of the material it replaces; a
   * shared material is copied, never painted in place, and keeps its record
   * with one user fewer; nothing else changes.
   */
  ghost predicate StepSpec(
    objs: map<string, SceneObject>, mats: map<MaterialId, Material>, next: MaterialId, name: string, st: MaterialStep)
    requires SceneInvariant(objs, mats, next) && name in objs
  {
    var s0 := objs[name].slots;
    && SceneInvariant(st.objs, st.mats, st.next)
    && st.objs.Keys == objs.Keys
    && (forall n :: n in st.objs && n != name ==> st.objs[n] == objs[n])
    && st.objs[name] == objs[name].(slots := if |s0| == 0 then [st.m] else s0[0 := st.m])
    && Owns(st.objs, st.mats, name) && st.objs[name].slots[0] == st.m
    && SlotsKnown(objs[name], mats)
    && st.mats[st.m] == OwnedMaterial(objs[name], mats)
    && (|s0| > 0 ==> (mats[s0[0]].users > 1 <==> st.m !in mats))
    && OthersKept(objs, mats, st.objs, st.mats, name, st.m)
  }

  lemma OwnStepSpec(objs: map<string, SceneObject>, mats: map<MaterialId, Material>, next: MaterialId, name: string)
    requires SceneInvariant(objs, mats, next) && name in objs
    ensures StepSpec(objs, mats, next, name, OwnStep(objs, mats, next, name))
  {
    var o := objs[name];
    assert SlotsKnown(o, mats);
    if |o.slots| == 0 {
      CreateStepSpec(objs, mats, next, name);
    } else if mats[o.slots[0]].users > 1 {
      CopyStepSpec(objs, mats, next, name);
    } else {
      ReuseStepSpec(objs, mats, next, name);
    }
  }

  lemma CreateStepSpec(objs: map<string, SceneObject>, mats: map<MaterialId, Material>, next: MaterialId, name: string)
    requires SceneInvariant(objs, mats, next) && name in objs && |objs[name].slots| == 0
    ensures StepSpec(objs, mats, next, name, OwnStep(objs, mats, next, name))
  {
    CreateMaterialKeepsInvariant(objs, mats, next, name, Material(1, true, DefaultBase, map[]));
    FreshIdUnshared(objs, mats, next);
  }

  lemma CopyStepSpec(objs: map<string, SceneObject>, mats: map<MaterialId, Material>, next: MaterialId, name: string)
    requires SceneInvariant(objs, mats, next) && name in objs && |objs[name].slots| > 0
    requires objs[name].slots[0] in mats && mats[objs[name].slots[0]].users > 1
    ensures StepSpec(objs, mats, next, name, OwnStep(objs, mats, next, name))
  {
    var k0 := objs[name].slots[0];
    assert name in SharersIn(objs, k0);
    CopyMaterialKeepsInvariant(objs, mats, next, name, mats[k0].(users := 1));
    CopySharers(objs, mats, next, name);
    assert next !in mats;
  }

  lemma ReuseStepSpec(objs: map<string, SceneObject>, mats: map<MaterialId, Material>, next: MaterialId, name: string)
    requires SceneInvariant(objs, mats, next) && name in objs && |objs[name].slots| > 0
    requires objs[name].slots[0] in mats && mats[objs[name].slots[0]].users <= 1
    ensures StepSpec(objs, mats, next, name, OwnStep(objs, mats, next, name))
  {
    var k0 := objs[name].slots[0];
    assert name in SharersIn(objs, k0);
    SoleSharer(SharersIn(objs, k0), name);
    assert objs[name := objs[name].(slots := objs[name].slots[0 := k0])] == objs by {
      assert objs[name].slots[0 := k0] == objs[name].slots;
    }
  }

  /** The object is keyed visible for render at frame `f`. */
  predicate ShownAt(o: SceneObject, f: int)
  {
    f in o.hideRenderKeys && !o.hideRenderKeys[f]
  }

  /** From `o` to `o2` no hide key turned hidden and the viewport keys stayed as they were. */
  predicate NoNewHiding(o: SceneObject, o2: SceneObject)
  {
    && (forall f :: f in o2.hideRenderKeys && o2.hideRenderKeys[f] ==> f in o.hideRenderKeys && o.hideRenderKeys[f])
    && o2.hideViewportKeys == o.hideViewportKeys
  }

  /** The keys of one row on an object that holds material `m` (render_animation.py:112-138). */
  function PaintStep(objs: map<string, SceneObject>, mats: map<MaterialId, Material>, name: string, m: MaterialId, row: Row)
    : (st: (map<string, SceneObject>, map<MaterialId, Material>))
    requires name in objs && m in mats
  {
    (objs[name := Shown(objs[name], row.startFrame)], mats[m := Painted(mats[m], row)])
  }

  /** Painting keeps the scene invariant and who holds which material; only `name` and `m` change. */
  lemma PaintStepSpec(objs: map<string, SceneObject>, mats: map<MaterialId, Material>, next: MaterialId, name: string, row: Row)
    requires SceneInvariant(objs, mats, next) && Owns(objs, mats, name)
    ensures var m := objs[name].slots[0];
            var (objs', mats') := PaintStep(objs, mats, name, m, row);
            && SceneInvariant(objs', mats', next)
            && Owns(objs', mats', name)
            && mats'.Keys == mats.Keys
            && (forall k :: SharersIn(objs', k) == SharersIn(objs, k))
            && (forall k :: k in mats && k != m ==> mats'[k] == mats[k])
  {
    var m := objs[name].slots[0];
    var (objs', mats') := PaintStep(objs, mats, name, m, row);
    SameSlotsSameSharers(objs, name, Shown(objs[name], row.startFrame));
    forall n | n in objs' ensures SlotsKnown(objs'[n], mats') {
      assert SlotsKnown(objs[n], mats);
    }
  }

  /** A step that keeps the others followed by one that changes only `m`'s record keeps the others. */
  lemma OthersKeptThenPaint(
    objs0: map<string, SceneObject>, mats0: map<MaterialId, Material>,
    objs1: map<string, SceneObject>, mats1: map<MaterialId, Material>,
    objs2: map<string, SceneObject>, mats2: map<MaterialId, Material>, name: string, m: MaterialId)
    requires OthersKept(objs0, mats0, objs1, mats1, name, m)
    requires forall k :: SharersIn(objs2, k) == SharersIn(objs1, k)
    requires mats2.Keys == mats1.Keys && forall k :: k in mats1 && k != m ==> mats2[k] == mats1[k]
    ensures OthersKept(objs0, mats0, objs2, mats2, name, m)
  {
  }

  /**
   * After the material step took `objs0` to `objs1`, keying the row gives the
   * object its Start key and paints the material it now owns; only that
   * object and that material differ from the step's result.
   */
  lemma PaintRowSpec(
    objs0: map<string, SceneObject>, mats0: map<MaterialId, Material>,
    objs1: map<string, SceneObject>, mats1: map<MaterialId, Material>, next: MaterialId, row: Row)
    requires SceneInvariant(objs1, mats1, next) && Owns(objs1, mats1, row.activity)
    requires row.activity in objs0 && objs1.Keys == objs0.Keys
    requires forall n :: n in objs1 && n != row.activity ==> objs1[n] == objs0[n]
    requires objs1[row.activity] == objs0[row.activity].(slots := objs1[row.activity].slots)
    requires SlotsKnown(objs0[row.activity], mats0)
    requires mats1[objs1[row.activity].slots[0]] == OwnedMaterial(objs0[row.activity], mats0)
    requires OthersKept(objs0, mats0, objs1, mats1, row.activity, objs1[row.activity].slots[0])
    ensures var name := row.activity;
            var m := objs1[name].slots[0];
            var (objs2, mats2) := PaintStep(objs1, mats1, name, m, row);
            && SceneInvariant(objs2, mats2, next)
            && objs2.Keys == objs0.Keys
            && (forall n :: n in objs2 && n != name ==> objs2[n] == objs0[n])
            && Owns(objs2, mats2, name)
            && objs2[name] == Shown(objs0[name].(slots := objs2[name].slots), row.startFrame)
            && objs2[name].slots[0] == m
            && mats2[m] == Painted(OwnedMaterial(objs0[name], mats0), row)
            && OthersKept(objs0, mats0, objs2, mats2, name, m)
  {
    var name := row.activity;
    var m := objs1[name].slots[0];
    PaintSharing(objs0, mats0, objs1, mats1, next, row);
    PaintObject(objs0, objs1, mats1, row);
  }

  /** Keying a row keeps the invariant, the row object's ownership and every other material. */
  lemma PaintSharing(
    objs0: map<string, SceneObject>, mats0: map<MaterialId, Material>,
    objs1: map<string, SceneObject>, mats1: map<MaterialId, Material>, next: MaterialId, row: Row)
    requires SceneInvariant(objs1, mats1, next) && Owns(objs1, mats1, row.activity)
    requires OthersKept(objs0, mats0, objs1, mats1, row.activity, objs1[row.activity].slots[0])
    ensures var name := row.activity;
            var m := objs1[name].slots[0];
            var (objs2, mats2) := PaintStep(objs1, mats1, name, m, row);
            && SceneInvariant(objs2, mats2, next)
            && Owns(objs2, mats2, name)
            && OthersKept(objs0, mats0, objs2, mats2, name, m)
  {
    var name := row.activity;
    var m := objs1[name].slots[0];
    PaintStepSpec(objs1, mats1, next, name, row);
    var (objs2, mats2) := PaintStep(objs1, mats1, name, m, row);
    OthersKeptThenPaint(objs0, mats0, objs1, mats1, objs2, mats2, name, m);
  }

  /** Keying a row changes only the row's object, by its Start key, and the material it holds. */
  lemma PaintObject(
    objs0: map<string, SceneObject>, objs1: map<string, SceneObject>, mats1: map<MaterialId, Material>, row: Row)
    requires row.activity in objs0 && objs1.Keys == objs0.Keys
    requires forall n :: n in objs1 && n != row.activity ==> objs1[n] == objs0[n]
    requires objs1[row.activity] == objs0[row.activity].(slots := objs1[row.activity].slots)
    requires |objs1[row.activity].slots| > 0 && objs1[row.activity].slots[0] in mats1
    ensures var name := row.activity;
            var m := objs1[name].slots[0];
            var (objs2, mats2) := PaintStep(objs1, mats1, name, m, row);
            && objs2.Keys == objs0.Keys
            && (forall n :: n in objs2 && n != name ==> objs2[n] == objs0[n])
            && objs2[name] == Shown(objs0[name].(slots := objs2[name].slots), row.startFrame)
            && objs2[name].slots[0] == m
            && mats2[m] == Painted(mats1[m], row)
  {
  }

  /** A scene's objects and materials with the next free material id, and how one row ended. */
  datatype RowResult = RowResult(
    objs: map<string, SceneObject>, mats: map<MaterialId, Material>, next: MaterialId, err: Option<DriverError>)

  /**
   * One row of render_animation.py:85-138 on the scene's maps: the material
   * step, then the BSDF lookup, then the row's keys.
   */
  function RowStep(objs: map<string, SceneObject>, mats: map<MaterialId, Material>, next: MaterialId, row: Row): RowResult
    requires SceneInvariant(objs, mats, next) && row.activity in objs
  {
    var name := row.activity;
    var st := OwnStep(objs, mats, next, name);
    if !st.mats[st.m].hasBsdf then RowResult(st.objs, st.mats, st.next, Some(MissingBsdf(name)))
    else
      var painted := PaintStep(st.objs, st.mats, name, st.m, row);
      RowResult(painted.0, painted.1, st.next, None)
  }

  /**
   * What one row promises: the invariant holds, only the row's object and the
   * material it owns change (a shared original it copied loses one user and
   * keeps the rest of its record), a missing BSDF fails after the material step, and
   * otherwise the object is keyed visible at Start and its material painted.
   */
  ghost predicate RowSpec(
    objs: map<string, SceneObject>, mats: map<MaterialId, Material>, next: MaterialId, row: Row,
    objs': map<string, SceneObject>, mats': map<MaterialId, Material>, next': MaterialId, err: Option<DriverError>)
    requires row.activity in objs
  {
    var name := row.activity;
    var o := objs[name];
    && SceneInvariant(objs', mats', next')
    && objs'.Keys == objs.Keys
    && (forall n :: n in objs' && n != name ==> objs'[n] == objs[n])
    && Owns(objs', mats', name)
    && SlotsKnown(o, mats)
    && var mat := OwnedMaterial(o, mats);
       var own := objs'[name];
       && (err.Some? <==> !mat.hasBsdf)
       && (err.Some? ==> err.value == MissingBsdf(name))
       && (err.Some? ==> own == o.(slots := own.slots) && mats'[own.slots[0]] == mat)
       && (err.None? ==> own == Shown(o.(slots := own.slots), row.startFrame))
       && (err.None? ==> mats'[own.slots[0]] == Painted(mat, row))
       && OthersKept(objs, mats, objs', mats', name, own.slots[0])
  }

  lemma RowStepSpec(objs: map<string, SceneObject>, mats: map<MaterialId, Material>, next: MaterialId, row: Row)
    requires SceneInvariant(objs, mats, next) && row.activity in objs
    ensures var rr := RowStep(objs, mats, next, row);
            RowSpec(objs, mats, next, row, rr.objs, rr.mats, rr.next, rr.err)
  {
    var st := OwnStep(objs, mats, next, row.activity);
    OwnStepSpec(objs, mats, next, row.activity);
    if st.mats[st.m].hasBsdf {
      PaintRowSpec(objs, mats, st.objs, st.mats, st.next, row);
    }
  }

  /** One row keeps the scene invariant and the set of object names. */
  lemma RowStepKeepsInvariant(objs: map<string, SceneObject>, mats: map<MaterialId, Material>, next: MaterialId, row: Row)
    requires SceneInvariant(objs, mats, next) && row.activity in objs
    ensures var rr := RowStep(objs, mats, next, row);
            SceneInvariant(rr.objs, rr.mats, rr.next) && rr.objs.Keys == objs.Keys
  {
    RowStepSpec(objs, mats, next, row);
  }

  /** Objects named by none of the first `i` rows are as they were in `objs0`. */
  ghost predicate Untouched(objs0: map<string, SceneObject>, objs: map<string, SceneObject>, rows: seq<Row>, i: nat)
    requires i <= |rows|
  {
    forall n :: n in objs && (forall j :: 0 <= j < i ==> rows[j].activity != n) ==> n in objs0 && objs[n] == objs0[n]
  }

  /** No object has been keyed hidden since `objs0`. */
  ghost predicate NoHiding(objs0: map<string, SceneObject>, objs: map<string, SceneObject>)
  {
    forall n :: n in objs ==> n in objs0 && NoNewHiding(objs0[n], objs[n])
  }

  /** Each of the first `i` rows left its object keyed visible at its start and holding its own material. */
  ghost predicate RowsDone(objs: map<string, SceneObject>, mats: map<MaterialId, Material>, rows: seq<Row>, i: nat)
    requires i <= |rows|
  {
    forall j :: 0 <= j < i ==>
      rows[j].activity in objs && ShownAt(objs[rows[j].activity], rows[j].startFrame) && Owns(objs, mats, rows[j].activity)
  }

  /**
   * The material each object named by none of the first `i` rows held in its
   * first slot in `objs0` keeps its base colour, colour keys and BSDF node;
   * only its user count may have dropped, when a row's object copied it.
   */
  ghost predicate HeldMaterialsKept(
    objs0: map<string, SceneObject>, mats0: map<MaterialId, Material>, mats: map<MaterialId, Material>, rows: seq<Row>, i: nat)
    requires i <= |rows|
  {
    forall n :: n in objs0 && |objs0[n].slots| > 0 && objs0[n].slots[0] in mats0 && (forall j :: 0 <= j < i ==> rows[j].activity != n) ==>
      && objs0[n].slots[0] in mats
      && mats[objs0[n].slots[0]] == mats0[objs0[n].slots[0]].(users := mats[objs0[n].slots[0]].users)
  }

  /** A row that keeps the others leaves the materials of the objects no row has named as they were, users aside. */
  lemma HeldMaterialsKeptStep(
    objs0: map<string, SceneObject>, mats0: map<MaterialId, Material>,
    objs: map<string, SceneObject>, mats: map<MaterialId, Material>,
    objs': map<string, SceneObject>, mats': map<MaterialId, Material>, rows: seq<Row>, i: nat)
    requires i < |rows| && objs.Keys == objs0.Keys && Untouched(objs0, objs, rows, i)
    requires HeldMaterialsKept(objs0, mats0, mats, rows, i)
    requires objs'.Keys == objs.Keys && Owns(objs', mats', rows[i].activity)
    requires forall n :: n in objs' && n != rows[i].activity ==> objs'[n] == objs[n]
    requires OthersKept(objs, mats, objs', mats', rows[i].activity, objs'[rows[i].activity].slots[0])
    ensures HeldMaterialsKept(objs0, mats0, mats', rows, i + 1)
  {
    var name := rows[i].activity;
    var m := objs'[name].slots[0];
    forall n | n in objs0 && |objs0[n].slots| > 0 && objs0[n].slots[0] in mats0 && (forall j :: 0 <= j < i + 1 ==> rows[j].activity != n)
      ensures objs0[n].slots[0] in mats'
      ensures mats'[objs0[n].slots[0]] == mats0[objs0[n].slots[0]].(users := mats'[objs0[n].slots[0]].users)
    {
      var k := objs0[n].slots[0];
      assert rows[i].activity != n;
      assert objs'[n] == objs[n] == objs0[n];
      assert n in SharersIn(objs', k);
      assert k != m;
    }
  }

  lemma HeldMaterialsKeptLater(
    objs0: map<string, SceneObject>, mats0: map<MaterialId, Material>, mats: map<MaterialId, Material>, rows: seq<Row>, i: nat, k: nat)
    requires i <= k <= |rows| && HeldMaterialsKept(objs0, mats0, mats, rows, i)
    ensures HeldMaterialsKept(objs0, mats0, mats, rows, k)
  {
  }

  lemma UntouchedStep(objs0: map<string, SceneObject>, objs: map<string, SceneObject>, objs': map<string, SceneObject>, rows: seq<Row>, i: nat)
    requires i < |rows| && Untouched(objs0, objs, rows, i) && objs'.Keys == objs.Keys
    requires forall n :: n in objs' && n != rows[i].activity ==> objs'[n] == objs[n]
    ensures Untouched(objs0, objs', rows, i + 1)
  {
    forall n | n in objs' && (forall j :: 0 <= j < i + 1 ==> rows[j].activity != n)
      ensures n in objs0 && objs'[n] == objs0[n]
    {
      assert rows[i].activity != n;
    }
  }

  lemma NoHidingStep(objs0: map<string, SceneObject>, objs: map<string, SceneObject>, objs': map<string, SceneObject>, name: string)
    requires NoHiding(objs0, objs) && name in objs && objs'.Keys == objs.Keys
    requires forall n :: n in objs' && n != name ==> objs'[n] == objs[n]
    requires NoNewHiding(objs[name], objs'[name])
    ensures NoHiding(objs0, objs')
  {
    forall n | n in objs' ensures n in objs0 && NoNewHiding(objs0[n], objs'[n]) {
      assert NoNewHiding(objs0[n], objs[n]);
    }
  }

  lemma UntouchedLater(objs0: map<string, SceneObject>, objs: map<string, SceneObject>, rows: seq<Row>, i: nat, k: nat)
    requires i <= k <= |rows| && Untouched(objs0, objs, rows, i)
    ensures Untouched(objs0, objs, rows, k)
  {
  }

  lemma RowsDoneStep(
    objs: map<string, SceneObject>, mats: map<MaterialId, Material>,
    objs': map<string, SceneObject>, mats': map<MaterialId, Material>, rows: seq<Row>, i: nat)
    requires i < |rows| && rows[i].activity in objs && RowsDone(objs, mats, rows, i)
    requires objs'.Keys == objs.Keys
    requires forall n :: n in objs' && n != rows[i].activity ==> objs'[n] == objs[n]
    requires Owns(objs', mats', rows[i].activity)
    requires var o := objs[rows[i].activity];
             objs'[rows[i].activity] == Shown(o.(slots := objs'[rows[i].activity].slots), rows[i].startFrame)
    requires OthersKept(objs, mats, objs', mats', rows[i].activity, objs'[rows[i].activity].slots[0])
    ensures RowsDone(objs', mats', rows, i + 1)
  {
    var name := rows[i].activity;
    forall j | 0 <= j < i + 1
      ensures rows[j].activity in objs' && ShownAt(objs'[rows[j].activity], rows[j].startFrame)
      ensures Owns(objs', mats', rows[j].activity)
    {
      if rows[j].activity != name {
        OwnsKept(objs, mats, objs', mats', name, objs'[name].slots[0], rows[j].activity);
      }
    }
  }

  /** One pass of the row loop keeps the loop's invariants, and its error names the row's object. */
  lemma RowLoopStep(
    objs0: map<string, SceneObject>, mats0: map<MaterialId, Material>,
    objs: map<string, SceneObject>, mats: map<MaterialId, Material>, next: MaterialId, rows: seq<Row>, i: nat)
    requires i < |rows| && SceneInvariant(objs, mats, next) && rows[i].activity in objs
    requires objs.Keys == objs0.Keys && Untouched(objs0, objs, rows, i) && NoHiding(objs0, objs) && RowsDone(objs, mats, rows, i)
    requires HeldMaterialsKept(objs0, mats0, mats, rows, i)
    ensures var rr := RowStep(objs, mats, next, rows[i]);
            && rr.objs.Keys == objs.Keys
            && Untouched(objs0, rr.objs, rows, i + 1)
            && NoHiding(objs0, rr.objs)
            && HeldMaterialsKept(objs0, mats0, rr.mats, rows, i + 1)
            && (rr.err.None? ==> RowsDone(rr.objs, rr.mats, rows, i + 1))
            && (rr.err.Some? ==> rr.err.value == MissingBsdf(rows[i].activity))
  {
    var rr := RowStep(objs, mats, next, rows[i]);
    RowStepSpec(objs, mats, next, rows[i]);
    UntouchedStep(objs0, objs, rr.objs, rows, i);
    NoHidingStep(objs0, objs, rr.objs, rows[i].activity);
    HeldMaterialsKeptStep(objs0, mats0, objs, mats, rr.objs, rr.mats, rows, i);
    if rr.err.None? {
      RowsDoneStep(objs, mats, rr.objs, rr.mats, rows, i);
    }
  }

  /**
   * The row loop of render_animation.py:85-138 from row `i` on: each row in
   * turn, stopping at the first row that fails.
   */
  function RowsFrom(objs: map<string, SceneObject>, mats: map<MaterialId, Material>, next: MaterialId, rows: seq<Row>, i: nat): RowResult
    requires i <= |rows| && SceneInvariant(objs, mats, next)
    requires forall j :: 0 <= j < |rows| ==> rows[j].activity in objs
    decreases |rows| - i
  {
    if i == |rows| then RowResult(objs, mats, next, None)
    else
      var rr := RowStep(objs, mats, next, rows[i]);
      RowStepKeepsInvariant(objs, mats, next, rows[i]);
      if rr.err.Some? then rr else RowsFrom(rr.objs, rr.mats, rr.next, rows, i + 1)
  }

  /** One more row of the loop: the row's result when it fails, otherwise the loop from the next row on. */
  lemma RowsFromStep(objs: map<string, SceneObject>, mats: map<MaterialId, Material>, next: MaterialId, rows: seq<Row>, i: nat)
    requires i < |rows| && SceneInvariant(objs, mats, next)
    requires forall j :: 0 <= j < |rows| ==> rows[j].activity in objs
    ensures var rr := RowStep(objs, mats, next, rows[i]);
            && SceneInvariant(rr.objs, rr.mats, rr.next)
            && rr.objs.Keys == objs.Keys
            && RowsFrom(objs, mats, next, rows, i) == if rr.err.Some? then rr else RowsFrom(rr.objs, rr.mats, rr.next, rows, i + 1)
  {
    RowStepKeepsInvariant(objs, mats, next, rows[i]);
  }

  /** The whole row loop. */
  function RowsStep(objs: map<string, SceneObject>, mats: map<MaterialId, Material>, next: MaterialId, rows: seq<Row>): RowResult
    requires SceneInvariant(objs, mats, next)
    requires forall j :: 0 <= j < |rows| ==> rows[j].activity in objs
  {
    RowsFrom(objs, mats, next, rows, 0)
  }

  /** The loop from row `i` on keeps the invariant and the loop's facts up to the last row. */
  lemma {:induction false} RowsFromSpec(
    objs0: map<string, SceneObject>, mats0: map<MaterialId, Material>,
    objs: map<string, SceneObject>, mats: map<MaterialId, Material>, next: MaterialId, rows: seq<Row>, i: nat)
    requires i <= |rows| && SceneInvariant(objs, mats, next)
    requires forall j :: 0 <= j < |rows| ==> rows[j].activity in objs
    requires objs.Keys == objs0.Keys && Untouched(objs0, objs, rows, i) && NoHiding(objs0, objs) && RowsDone(objs, mats, rows, i)
    requires HeldMaterialsKept(objs0, mats0, mats, rows, i)
    ensures var rr := RowsFrom(objs, mats, next, rows, i);
            && SceneInvariant(rr.objs, rr.mats, rr.next)
            && rr.objs.Keys == objs.Keys
            && Untouched(objs0, rr.objs, rows, |rows|)
            && NoHiding(objs0, rr.objs)
            && HeldMaterialsKept(objs0, mats0, rr.mats, rows, |rows|)
            && (rr.err.None? ==> RowsDone(rr.objs, rr.mats, rows, |rows|))
            && (rr.err.Some? ==> exists j :: i <= j < |rows| && rr.err.value == MissingBsdf(rows[j].activity))
    decreases |rows| - i
  {
    if i < |rows| {
      var rr := RowStep(objs, mats, next, rows[i]);
      RowsFromStep(objs, mats, next, rows, i);
      RowLoopStep(objs0, mats0, objs, mats, next, rows, i);
      if rr.err.None? {
        RowsFromSpec(objs0, mats0, rr.objs, rr.mats, rr.next, rows, i + 1);
      } else {
        UntouchedLater(objs0, rr.objs, rows, i + 1, |rows|);
        HeldMaterialsKeptLater(objs0, mats0, rr.mats, rows, i + 1, |rows|);
      }
    }
  }

  /**
   * After the row loop every row's object is keyed visible at its Start Frame
   * and holds a material of its own unless a row failed; no key hides an
   * object; objects no row names are untouched, and so are the colours of
   * the materials they hold; an error names a row's Activity.
   */
  lemma RowsStepSpec(objs: map<string, SceneObject>, mats: map<MaterialId, Material>, next: MaterialId, rows: seq<Row>)
    requires SceneInvariant(objs, mats, next)
    requires forall j :: 0 <= j < |rows| ==> rows[j].activity in objs
    ensures var rr := RowsStep(objs, mats, next, rows);
            && SceneInvariant(rr.objs, rr.mats, rr.next)
            && rr.objs.Keys == objs.Keys
            && Untouched(objs, rr.objs, rows, |rows|)
            && NoHiding(objs, rr.objs)
            && HeldMaterialsKept(objs, mats, rr.mats, rows, |rows|)
            && (rr.err.None? ==> RowsDone(rr.objs, rr.mats, rows, |rows|))
            && (rr.err.Some? ==> exists j :: 0 <= j < |rows| && rr.err.value == MissingBsdf(rows[j].activity))
  {
    forall n | n in objs ensures NoNewHiding(objs[n], objs[n]) {
    }
    RowsFromSpec(objs, mats, objs, mats, next, rows, 0);
  }

  /** The Activity of each row, in row order. */
  function Activities(rows: seq<Row>): (names: seq<string>)
    ensures |names| == |rows|
  {
    seq(|rows|, i requires 0 <= i < |rows| => rows[i].activity)
  }

  /** Every object among `names` hidden at frame 0, every other object as it was (render_animation.py:75-79). */
  function HideAll(objs: map<string, SceneObject>, names: seq<string>): map<string, SceneObject>
  {
    map n | n in objs :: if n in names then Hidden(objs[n]) else objs[n]
  }

  /** Hiding keeps every slot, so it keeps the scene invariant. */
  lemma HideAllKeepsInvariant(objs: map<string, SceneObject>, mats: map<MaterialId, Material>, next: nat, names: seq<string>)
    requires SceneInvariant(objs, mats, next)
    ensures HideAll(objs, names).Keys == objs.Keys
    ensures SceneInvariant(HideAll(objs, names), mats, next)
  {
    var hidden := HideAll(objs, names);
    forall m ensures SharersIn(hidden, m) == SharersIn(objs, m) {
      assert forall n :: n in hidden ==> hidden[n].slots == objs[n].slots;
    }
    forall n | n in hidden ensures SlotsKnown(hidden[n], mats) {
      assert hidden[n].slots == objs[n].slots;
    }
  }

  /**
   * The scene the driver leaves after keying (render_animation.py:75-138):
   * every row's object hidden at frame 0, then the row loop.
   */
  function Animate(objs: map<string, SceneObject>, mats: map<MaterialId, Material>, next: MaterialId, rows: seq<Row>): RowResult
    requires SceneInvariant(objs, mats, next)
    requires forall j :: 0 <= j < |rows| ==> rows[j].activity in objs
  {
    HideAllKeepsInvariant(objs, mats, next, Activities(rows));
    RowsStep(HideAll(objs, Activities(rows)), mats, next, rows)
  }

  /**
   * After keying, every row's object is keyed hidden in the viewport at
   * frame 0 and, when no row failed, keyed visible for render at its Start
   * Frame and holding a material of its own; no other object changes, nor
   * the colour, keys or BSDF node of the material it holds.
   */
  lemma AnimateSpec(objs: map<string, SceneObject>, mats: map<MaterialId, Material>, next: MaterialId, rows: seq<Row>)
    requires SceneInvariant(objs, mats, next)
    requires forall j :: 0 <= j < |rows| ==> rows[j].activity in objs
    ensures var a := Animate(objs, mats, next, rows);
            && SceneInvariant(a.objs, a.mats, a.next)
            && a.objs.Keys == objs.Keys
            && (forall j :: 0 <= j < |rows| ==> a.objs[rows[j].activity].hideViewportKeys == objs[rows[j].activity].hideViewportKeys[0 := true])
            && (forall n :: n in objs && n !in Activities(rows) ==> a.objs[n] == objs[n])
            && (forall n :: n in objs && n !in Activities(rows) && |objs[n].slots| > 0 ==>
                  && objs[n].slots[0] in a.mats
                  && a.mats[objs[n].slots[0]] == mats[objs[n].slots[0]].(users := a.mats[objs[n].slots[0]].users))
            && (a.err.None? ==> RowsDone(a.objs, a.mats, rows, |rows|))
            && (a.err.Some? ==> exists j :: 0 <= j < |rows| && a.err.value == MissingBsdf(rows[j].activity))
  {
    var names := Activities(rows);
    HideAllKeepsInvariant(objs, mats, next, names);
    var hidden := HideAll(objs, names);
    RowsStepSpec(hidden, mats, next, rows);
    var a := Animate(objs, mats, next, rows);
    forall j | 0 <= j < |rows|
      ensures a.objs[rows[j].activity].hideViewportKeys == objs[rows[j].activity].hideViewportKeys[0 := true]
    {
      assert rows[j].activity == names[j];
      assert NoNewHiding(hidden[rows[j].activity], a.objs[rows[j].activity]);
    }
    forall n | n in objs && n !in names
      ensures a.objs[n] == objs[n]
      ensures |objs[n].slots| > 0 ==> objs[n].slots[0] in a.mats && a.mats[objs[n].slots[0]] == mats[objs[n].slots[0]].(users := a.mats[objs[n].slots[0]].users)
    {
      forall j | 0 <= j < |rows| ensures rows[j].activity != n {
        assert names[j] == rows[j].activity;
      }
      assert hidden[n] == objs[n];
      assert SlotsKnown(objs[n], mats);
    }
  }

  /**
   * The event frames of render_animation.py:140-147: every Start and End
   * Frame gathered into a set, then listed in increasing order.
   */
  method EventFrames(rows: seq<Row>) returns (ev: seq<int>)
    ensures StrictlyIncreasing(ev)
    ensures forall f :: f in ev <==> f in EventSet(rows)
    ensures forall f :: f in ev <==> exists i :: 0 <= i < |rows| && (rows[i].startFrame == f || rows[i].endFrame == f)
    ensures |ev| == |EventSet(rows)| <= 2 * |rows|
  {
    var frames: set<int> := {};
    for i := 0 to |rows|
      invariant frames == EventSet(rows[..i])
    {
      assert rows[..i + 1][..i] == rows[..i];
      frames := frames + {rows[i].startFrame, rows[i].endFrame};
    }
    assert rows[..|rows|] == rows;
    EventSetSize(rows);
    forall f ensures f in frames <==> exists i :: 0 <= i < |rows| && (rows[i].startFrame == f || rows[i].endFrame == f) {
      EventSetMembers(rows, f);
    }
    ev := SortFrames(frames);
  }

  /** `sorted` on a set of frames: its members, each once, in increasing order. */
  method SortFrames(frames: set<int>) returns (ev: seq<int>)
    ensures StrictlyIncreasing(ev)
    ensures forall f :: f in ev <==> f in frames
    ensures |ev| == |frames|
  {
    ev := [];
    var rest := frames;
    while rest != {}
      invariant rest <= frames
      invariant StrictlyIncreasing(ev)
      invariant forall f :: f in ev <==> f in frames && f !in rest
      invariant forall a, b :: a in ev && b in rest ==> a < b
      invariant |ev| + |rest| == |frames|
      decreases |rest|
    {
      SetHasMin(rest);
      var m :| m in rest && forall y :: y in rest ==> m <= y;
      forall i | 0 <= i < |ev| ensures ev[i] < m {
        assert ev[i] in ev;
      }
      ev := ev + [m];
      rest := rest - {m};
    }
  }

  /** The `file` entry of each event frame, `frames/frame_NNNN.png` (render_animation.py:164, 171). */
  function ManifestFiles(ev: seq<int>): (files: seq<string>)
    ensures |files| == |ev|
  {
    seq(|ev|, k requires 0 <= k < |ev| => ManifestPath(ev[k]))
  }

  lemma ManifestFileAt(ev: seq<int>, k: nat)
    requires k < |ev|
    ensures ManifestFiles(ev)[k] == ManifestPath(ev[k])
  {
  }

  /** The lines the loop of render_animation.py:163-168 writes for event frame `i`, whose file entry is `files[i]`. */
  function Entry(files: seq<string>, ev: seq<int>, fps: int, i: nat): seq<ManifestLine>
    requires |files| == |ev| && i < |ev| && fps > 0
  {
    [FileLine(files[i])] + if i < |ev| - 1 then [DurationLine(Gap(ev, i, fps))] else []
  }

  /** The lines that loop has written after the first `i` event frames. */
  function ManifestBody(files: seq<string>, ev: seq<int>, fps: int, i: nat): seq<ManifestLine>
    requires |files| == |ev| && i <= |ev| && fps > 0
    decreases i
  {
    if i == 0 then [] else ManifestBody(files, ev, fps, i - 1) + Entry(files, ev, fps, i - 1)
  }

  /** The whole manifest, or the IndexError of `event_frames[-1]` when there is no event frame. */
  function ConcatManifest(ev: seq<int>, fps: int): Result<seq<ManifestLine>, DriverError>
    requires fps > 0
  {
    if ev == [] then Failure(NoEventFrames)
    else
      var files := ManifestFiles(ev);
      Success(ManifestBody(files, ev, fps, |ev|) + [FileLine(files[|ev| - 1])])
  }

  /** After `i` frames the loop has written two lines per frame, one fewer once the last frame is in. */
  lemma {:induction false} ManifestBodyLength(files: seq<string>, ev: seq<int>, fps: int, i: nat)
    requires |files| == |ev| && i <= |ev| && fps > 0
    ensures |ManifestBody(files, ev, fps, i)| == if 0 < i == |ev| then 2 * i - 1 else 2 * i
    decreases i
  {
    if i > 0 {
      ManifestBodyLength(files, ev, fps, i - 1);
    }
  }

  /** Frame `j`'s `file` line, and its `duration` line unless it is the last frame, sit at 2j and 2j+1. */
  lemma {:induction false} ManifestBodyAt(files: seq<string>, ev: seq<int>, fps: int, i: nat, j: nat)
    requires |files| == |ev| && j < i <= |ev| && fps > 0
    ensures var body := ManifestBody(files, ev, fps, i);
            && 2 * j < |body| && body[2 * j] == FileLine(files[j])
            && (j < |ev| - 1 ==> 2 * j + 1 < |body| && body[2 * j + 1] == DurationLine(Gap(ev, j, fps)))
    decreases i
  {
    var body, prev, entry := ManifestBody(files, ev, fps, i), ManifestBody(files, ev, fps, i - 1), Entry(files, ev, fps, i - 1);
    assert body == prev + entry;
    ManifestBodyLength(files, ev, fps, i - 1);
    if j < i - 1 {
      ManifestBodyAt(files, ev, fps, i - 1, j);
      assert body[2 * j] == prev[2 * j];
      if j < |ev| - 1 {
        assert body[2 * j + 1] == prev[2 * j + 1];
      }
    } else {
      assert body[2 * j] == entry[0];
      if j < |ev| - 1 {
        assert body[2 * j + 1] == entry[1];
      }
    }
  }

  /** The durations of one frame's entry: its gap, or none for the last frame. */
  lemma EntryDurations(files: seq<string>, ev: seq<int>, fps: int, i: nat)
    requires |files| == |ev| && i < |ev| && fps > 0
    ensures Durations(Entry(files, ev, fps, i)) == if i < |ev| - 1 then [Gap(ev, i, fps)] else []
  {
    var entry := Entry(files, ev, fps, i);
    assert Durations(entry) == [] + Durations(entry[1..]);
    if i < |ev| - 1 {
      assert entry[1..] == [DurationLine(Gap(ev, i, fps))];
      assert Durations(entry[1..]) == [Gap(ev, i, fps)] + Durations(entry[1..][1..]);
    } else {
      assert entry[1..] == [];
    }
  }

  /** After `i` frames the durations written are the first gaps. */
  lemma {:induction false} ManifestBodyDurations(files: seq<string>, ev: seq<int>, fps: int, i: nat)
    requires |files| == |ev| && 0 < i <= |ev| && fps > 0
    ensures Durations(ManifestBody(files, ev, fps, i)) == Gaps(ev, fps)[..if i == |ev| then i - 1 else i]
    decreases i
  {
    var prev := ManifestBody(files, ev, fps, i - 1);
    DurationsAppend(prev, Entry(files, ev, fps, i - 1));
    EntryDurations(files, ev, fps, i - 1);
    if i == 1 {
      assert Durations(prev) == [];
    } else {
      ManifestBodyDurations(files, ev, fps, i - 1);
      assert Gaps(ev, fps)[..i - 1] + (if i - 1 < |ev| - 1 then [Gap(ev, i - 1, fps)] else [])
             == Gaps(ev, fps)[..if i == |ev| then i - 1 else i];
    }
  }

  /** The durations of the whole manifest are the gaps between consecutive event frames. */
  lemma ManifestDurations(files: seq<string>, ev: seq<int>, fps: int)
    requires |files| == |ev| && ev != [] && fps > 0
    ensures Durations(ManifestBody(files, ev, fps, |ev|) + [FileLine(files[|ev| - 1])]) == Gaps(ev, fps)
  {
    var n := |ev|;
    var body, last := ManifestBody(files, ev, fps, n), [FileLine(files[n - 1])];
    ManifestBodyDurations(files, ev, fps, n);
    DurationsAppend(body, last);
    assert Durations(last) == [] by {
      assert Durations(last) == [] + Durations(last[1..]);
    }
    assert Gaps(ev, fps)[..n - 1] == Gaps(ev, fps);
  }

  /**
   * The manifest of event frames e0 < ... < ek has a `file` line for each
   * frame, the i-th followed by `duration` (e(i+1) - e(i)) / fps, and then the
   * last frame's `file` line again; its durations are exactly the gaps.
   */
  lemma ConcatManifestShape(ev: seq<int>, fps: int)
    requires fps > 0
    ensures ConcatManifest(ev, fps).Failure? <==> ev == []
    ensures ev != [] ==>
              var lines := ConcatManifest(ev, fps).value;
              var n := |ev|;
              && |lines| == 2 * n
              && (forall i :: 0 <= i < n ==> lines[2 * i] == FileLine(ManifestPath(ev[i])))
              && (forall i :: 0 <= i < n - 1 ==> lines[2 * i + 1] == DurationLine(Gap(ev, i, fps)))
              && lines[2 * n - 1] == FileLine(ManifestPath(ev[n - 1]))
              && Durations(lines) == Gaps(ev, fps)
  {
    if ev != [] {
      var n, files := |ev|, ManifestFiles(ev);
      var body := ManifestBody(files, ev, fps, n);
      var lines := body + [FileLine(files[n - 1])];
      ManifestBodyLength(files, ev, fps, n);
      forall i | 0 <= i < n
        ensures lines[2 * i] == FileLine(ManifestPath(ev[i]))
        ensures i < n - 1 ==> lines[2 * i + 1] == DurationLine(Gap(ev, i, fps))
      {
        ManifestBodyAt(files, ev, fps, n, i);
        ManifestFileAt(ev, i);
      }
      ManifestFileAt(ev, n - 1);
      ManifestDurations(files, ev, fps);
    }
  }

  /** Writes the concat manifest line by line (render_animation.py:162-171). */
  method WriteConcatManifest(ev: seq<int>, fps: int) returns (r: Result<seq<ManifestLine>, DriverError>)
    requires fps > 0
    ensures r == ConcatManifest(ev, fps)
  {
    ghost var files := ManifestFiles(ev);
    var lines: seq<ManifestLine> := [];
    for i := 0 to |ev|
      invariant lines == ManifestBody(files, ev, fps, i)
    {
      ManifestFileAt(ev, i);
      lines := lines + [FileLine(ManifestPath(ev[i]))];
      if i < |ev| - 1 {
        lines := lines + [DurationLine(Gap(ev, i, fps))];
      }
    }
    if ev == [] {
      return Failure(NoEventFrames);
    }
    ManifestFileAt(ev, |ev| - 1);
    r := Success(lines + [FileLine(ManifestPath(ev[|ev| - 1]))]);
  }

  class Scene {
    var objects: map<string, SceneObject>
    var materials: map<MaterialId, Material>
    var nextMaterial: MaterialId
    var currentFrame: int
    var renders: seq<RenderCall>

    ghost predicate Valid()
      reads this
    {
      SceneInvariant(objects, materials, nextMaterial)
    }

    /** The scene of the .blend file as opened, at the current frame saved in it, nothing rendered yet. */
    constructor(objects0: map<string, SceneObject>, materials0: map<MaterialId, Material>, next0: MaterialId, frame0: int)
      requires SceneInvariant(objects0, materials0, next0)
      ensures Valid()
      ensures objects == objects0 && materials == materials0 && nextMaterial == next0
      ensures currentFrame == frame0 && renders == []
    {
      objects := objects0;
      materials := materials0;
      nextMaterial := next0;
      currentFrame := frame0;
      renders := [];
    }

    /**
     * Looks each row's Activity up among the scene's objects, in row order
     * (render_animation.py:64-69); the first missing name ends the run.
     */
    method ResolveObjects(rows: seq<Row>) returns (r: Result<seq<string>, DriverError>)
      ensures r.Success? <==> forall i :: 0 <= i < |rows| ==> rows[i].activity in objects
      ensures r.Success? ==>
                |r.value| == |rows|
                && forall i :: 0 <= i < |rows| ==> r.value[i] == rows[i].activity && r.value[i] in objects
      ensures r.Failure? ==>
                exists k ::
                  && 0 <= k < |rows|
                  && rows[k].activity !in objects
                  && r.error == ObjectNotFound(rows[k].activity)
                  && forall j :: 0 <= j < k ==> rows[j].activity in objects
    {
      var found: seq<string> := [];
      for i := 0 to |rows|
        invariant |found| == i
        invariant forall j :: 0 <= j < i ==> found[j] == rows[j].activity && rows[j].activity in objects
      {
        var name := rows[i].activity;
        if name !in objects {
          return Failure(ObjectNotFound(name));
        }
        found := found + [name];
      }
      r := Success(found);
    }

    /** Hides every named object for render and viewport, keyed at frame 0 (render_animation.py:75-79). */
    method HideInitially(names: seq<string>)
      modifies this
      requires Valid()
      requires forall k :: 0 <= k < |names| ==> names[k] in objects
      ensures Valid()
      ensures objects.Keys == old(objects).Keys
      ensures forall n :: n in objects ==> objects[n] == if n in names then Hidden(old(objects)[n]) else old(objects)[n]
      ensures materials == old(materials) && nextMaterial == old(nextMaterial)
      ensures currentFrame == old(currentFrame) && renders == old(renders)
    {
      for i := 0 to |names|
        invariant Valid()
        invariant HiddenSoFar(old(objects), objects, names, i)
        invariant materials == old(materials) && nextMaterial == old(nextMaterial)
        invariant currentFrame == old(currentFrame) && renders == old(renders)
      {
        var name := names[i];
        HideKeepsInvariant(objects, materials, nextMaterial, name);
        HiddenSoFarStep(old(objects), objects, names, i);
        objects := objects[name := Hidden(objects[name])];
      }
      assert names[..|names|] == names;
    }
  
    /**
     * Gives `name` a material that it alone uses (render_animation.py:90-100):
     * a new node material when it has no slot, otherwise its first slot's
     * material, replaced by a single-user copy when it has more than one user.
     */
    method OwnMaterial(name: string) returns (m: MaterialId)
      modifies this
      requires Valid() && name in objects
      ensures Valid()
      ensures objects.Keys == old(objects).Keys
      ensures forall n :: n in objects && n != name ==> objects[n] == old(objects)[n]
      ensures var s0 := old(objects)[name].slots;
              objects[name] == old(objects)[name].(slots := if |s0| == 0 then [m] else s0[0 := m])
      ensures Owns(objects, materials, name) && objects[name].slots[0] == m
      ensures SlotsKnown(old(objects)[name], old(materials))
      ensures materials[m] == OwnedMaterial(old(objects)[name], old(materials))
      ensures var s0 := old(objects)[name].slots;
              |s0| > 0 ==> (old(materials)[s0[0]].users > 1 <==> m !in old(materials))
      ensures OthersKept(old(objects), old(materials), objects, materials, name, m)
      ensures MaterialStep(objects, materials, nextMaterial, m) == OwnStep(old(objects), old(materials), old(nextMaterial), name)
      ensures renders == old(renders) && currentFrame == old(currentFrame)
    {
      var st := OwnStep(objects, materials, nextMaterial, name);
      OwnStepSpec(objects, materials, nextMaterial, name);
      objects, materials, nextMaterial, m := st.objs, st.mats, st.next, st.m;
    }
  
    /**
     * One row of render_animation.py:85-138: the object gets a material of its
     * own, is keyed visible at the row's Start Frame, and the material's base
     * colour is keyed by `ColorSchedule`. A material without a Principled BSDF
     * node stops the row after the material step.
     */
    method AnimateRow(row: Row) returns (err: Option<DriverError>)
      modifies this
      requires Valid() && row.activity in objects
      ensures Valid()
      ensures RowResult(objects, materials, nextMaterial, err) == RowStep(old(objects), old(materials), old(nextMaterial), row)
      ensures renders == old(renders) && currentFrame == old(currentFrame)
    {
      RowStepKeepsInvariant(objects, materials, nextMaterial, row);
      var m := OwnMaterial(row.activity);
      if !materials[m].hasBsdf {
        return Some(MissingBsdf(row.activity));
      }
      var painted := PaintStep(objects, materials, row.activity, m, row);
      objects, materials := painted.0, painted.1;
      err := None;
    }

    /**
     * The row loop of render_animation.py:85-138: the new scene is `RowsStep`
     * of the old one. Every row's object ends up keyed visible at its Start
     * Frame and holding a material of its own; no key ever hides an object;
     * objects no row names are untouched, and so are the colours of their materials.
     */
    method AnimateRows(rows: seq<Row>) returns (err: Option<DriverError>)
      modifies this
      requires Valid()
      requires forall i :: 0 <= i < |rows| ==> rows[i].activity in objects
      ensures Valid()
      ensures RowResult(objects, materials, nextMaterial, err) == RowsStep(old(objects), old(materials), old(nextMaterial), rows)
      ensures objects.Keys == old(objects).Keys
      ensures Untouched(old(objects), objects, rows, |rows|)
      ensures NoHiding(old(objects), objects)
      ensures HeldMaterialsKept(old(objects), old(materials), materials, rows, |rows|)
      ensures err.None? ==> RowsDone(objects, materials, rows, |rows|)
      ensures err.Some? ==> exists i :: 0 <= i < |rows| && err.value == MissingBsdf(rows[i].activity)
      ensures renders == old(renders) && currentFrame == old(currentFrame)
    {
      for i := 0 to |rows|
        invariant Valid()
        invariant objects.Keys == old(objects).Keys
        invariant RowsFrom(objects, materials, nextMaterial, rows, i) == RowsStep(old(objects), old(materials), old(nextMaterial), rows)
        invariant renders == old(renders) && currentFrame == old(currentFrame)
      {
        RowsFromStep(objects, materials, nextMaterial, rows, i);
        err := AnimateRow(rows[i]);
        if err.Some? {
          RowsStepSpec(old(objects), old(materials), old(nextMaterial), rows);
          return;
        }
      }
      err := None;
      RowsStepSpec(old(objects), old(materials), old(nextMaterial), rows);
    }

    /** One render per event frame, in order, each to its `frame_NNNN.png` (render_animation.py:149-152). */
    method RenderEventFrames(ev: seq<int>, framesDir: string)
      modifies this
      ensures renders == old(renders) + RenderLog(ev, framesDir)
      ensures currentFrame == if ev == [] then old(currentFrame) else ev[|ev| - 1]
      ensures objects == old(objects) && materials == old(materials) && nextMaterial == old(nextMaterial)
    {
      for i := 0 to |ev|
        invariant renders == old(renders) + RenderLog(ev[..i], framesDir)
        invariant currentFrame == if i == 0 then old(currentFrame) else ev[i - 1]
        invariant objects == old(objects) && materials == old(materials) && nextMaterial == old(nextMaterial)
      {
        currentFrame := ev[i];
        var call := RenderCall(ev[i], JoinPath(framesDir, FrameFileName(ev[i])));
        assert ev[..i + 1][..i] == ev[..i];
        renders := renders + [call];
      }
      assert ev[..|ev|] == ev;
    }
  
    /**
     * The keying half of the driver (render_animation.py:61-138): bind the
     * rows' objects, keep one per name, hide them, key every row. A missing
     * object changes nothing; otherwise the scene's objects and materials
     * become `Animate` of the old ones.
     */
    method KeyRows(rows: seq<Row>) returns (err: Option<DriverError>)
      modifies this
      requires Valid()
      ensures Valid()
      ensures err.Some? && err.value.ObjectNotFound? <==> exists i :: 0 <= i < |rows| && rows[i].activity !in old(objects)
      ensures err.Some? && err.value.ObjectNotFound? ==>
                exists k ::
                  && 0 <= k < |rows|
                  && rows[k].activity !in old(objects)
                  && err.value == ObjectNotFound(rows[k].activity)
                  && forall j :: 0 <= j < k ==> rows[j].activity in old(objects)
      ensures err.Some? ==> err.value != NoEventFrames
      ensures (exists i :: 0 <= i < |rows| && rows[i].activity !in old(objects)) ==>
                objects == old(objects) && materials == old(materials) && nextMaterial == old(nextMaterial)
      ensures (forall i :: 0 <= i < |rows| ==> rows[i].activity in old(objects)) ==>
                RowResult(objects, materials, nextMaterial, err) == Animate(old(objects), old(materials), old(nextMaterial), rows)
      ensures renders == old(renders) && currentFrame == old(currentFrame)
    {
      var bound := ResolveObjects(rows);
      if bound.Failure? {
        return Some(bound.error);
      }
      var names := Dedup(bound.value);
      forall k | 0 <= k < |names| ensures names[k] in objects {
        assert names[k] in bound.value;
      }
      ghost var hidden := HideAll(objects, Activities(rows));
      HideInitially(names);
      assert objects == hidden by {
        forall n | n in objects ensures n in names <==> n in Activities(rows) {
          assert bound.value == Activities(rows);
        }
      }
      err := AnimateRows(rows);
    }

    /**
     * The driver after its argument handling (render_animation.py:61-171):
     * key the scene, render each event frame into `<runDir>/frames` and write
     * the concat manifest at the scene's frame rate.
     */
    method Run(rows: seq<Row>, runDir: string) returns (r: Result<seq<ManifestLine>, DriverError>)
      modifies this
      requires Valid()
      ensures Valid()
      ensures r.Failure? && r.error.ObjectNotFound? <==> exists i :: 0 <= i < |rows| && rows[i].activity !in old(objects)
      ensures r.Failure? && r.error.ObjectNotFound? ==>
                exists k ::
                  && 0 <= k < |rows|
                  && rows[k].activity !in old(objects)
                  && r.error == ObjectNotFound(rows[k].activity)
                  && forall j :: 0 <= j < k ==> rows[j].activity in old(objects)
      ensures r.Failure? && r.error == NoEventFrames <==> rows == []
      ensures (exists i :: 0 <= i < |rows| && rows[i].activity !in old(objects)) ==>
                objects == old(objects) && materials == old(materials) && nextMaterial == old(nextMaterial)
                && renders == old(renders)
      ensures (forall i :: 0 <= i < |rows| ==> rows[i].activity in old(objects)) ==>
                var a := Animate(old(objects), old(materials), old(nextMaterial), rows);
                && objects == a.objs && materials == a.mats && nextMaterial == a.next
                && (a.err.Some? ==> r == Failure(a.err.value) && renders == old(renders))
                && (a.err.None? && rows != [] ==> r.Success?)
      ensures r.Success? ==>
                exists ev ::
                  && StrictlyIncreasing(ev)
                  && (forall f :: f in ev <==> f in EventSet(rows))
                  && renders == old(renders) + RenderLog(ev, JoinPath(runDir, "frames"))
                  && r == ConcatManifest(ev, SceneFps)
                  && Sum(Durations(r.value)) == (ev[|ev| - 1] - ev[0]) as real / SceneFps as real
    {
      var err := KeyRows(rows);
      if err.Some? {
        return Failure(err.value);
      }
      var ev := EventFrames(rows);
      if rows != [] {
        assert rows[0].startFrame in ev;
      }
      RenderEventFrames(ev, JoinPath(runDir, "frames"));
      r := WriteConcatManifest(ev, SceneFps);
      ConcatManifestShape(ev, SceneFps);
      if r.Success? {
        GapsSum(ev, SceneFps);
      }
    }
  }
}
