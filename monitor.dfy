/**
 * The monitoring loop of `process_video`: per-landmark zone containment,
 * the five-second cooldown against the last capture, and the capture
 * sequence (allocate id, insert the row into both tables, write the
 * cropped screenshot).
 *
 * Pose estimation, colour conversion, resizing, drawing and the preview
 * window are outside the model: a frame arrives with its landmarks
 * already scaled to the native frame's pixels and with the frame as
 * resized to 1280x720 for cropping. The clock is read per check: each
 * landmark carries the value `time.time()` returns if that landmark is
 * found inside the zone. No ordering of clock readings is assumed.
 */
module Monitor {
  import opened Wrappers
  import opened Store
  import opened Decimal

  /** Seconds that must separate two captures (`screen_interval`). */
  const ScreenInterval: int := 5

  /** Size of the frame the screenshot is cropped from. */
  const DisplayWidth: int := 1280
  const DisplayHeight: int := 720

  /** The watched rectangle: top-left corner and size, in pixels. */
  datatype Zone = Zone(x: int, y: int, width: int, height: int)

  /** Rectangle used when the settings file cannot be read. */
  const DefaultZone: Zone := Zone(100, 100, 100, 100)

  /**
   * The decoded settings file; `None` when it cannot be opened or is not
   * valid JSON.
   */
  type Settings = map<string, int>

  predicate HasZoneKeys(m: Settings)
  {
    "x" in m && "y" in m && "width" in m && "height" in m
  }

  /**
   * The zone of a session: the four settings values, or the default
   * rectangle when the file is unreadable or a key is missing (every
   * failure lands in the same handler, which resets all four values).
   */
  function LoadZone(settings: Option<Settings>): (z: Zone)
    ensures settings.None? ==> z == DefaultZone
    ensures settings.Some? && !HasZoneKeys(settings.value) ==> z == DefaultZone
    ensures settings.Some? && HasZoneKeys(settings.value) ==>
      z == Zone(settings.value["x"], settings.value["y"], settings.value["width"], settings.value["height"])
  {
    match settings
    case Some(m) =>
      if HasZoneKeys(m) then Zone(m["x"], m["y"], m["width"], m["height"]) else DefaultZone
    case None => DefaultZone
  }

  datatype Point = Point(x: int, y: int)

  /** A pose landmark in pixels, with the clock reading its containment check would take. */
  datatype Landmark = Landmark(at: Point, clock: int)

  /** Pixel values are carried through unchanged; their encoding does not matter here. */
  type Pixel = int

  /** An image as a sequence of rows. */
  type Image = seq<seq<Pixel>>

  /**
   * One frame read from the video: its landmarks (empty when no pose was
   * found), the calendar date when it is processed, and the frame resized
   * to DisplayWidth x DisplayHeight.
   */
  datatype Frame = Frame(landmarks: seq<Landmark>, date: string, display: Image)

  /** One fired capture. */
  datatype Capture = Capture(id: int, date: string, path: string, time: int, screenshot: Image)

  /** The outside-world effects of a capture, in the order they happen. */
  datatype Effect = InsertRow(table: TableName, row: Row) | WriteImage(file: string, image: Image)

  /**
   * Everything a run changes: `last_screen_time`, the two tables, the
   * captures so far, the effects so far, and whether the worker has died
   * on a failed image write.
   */
  datatype Session = Session(last: int, templates: seq<Row>, events: seq<Row>,
                             captures: seq<Capture>, effects: seq<Effect>, crashed: bool)

  /** A landmark is inside when both coordinates lie in the closed intervals of the zone. */
  predicate Inside(z: Zone, p: Point)
    ensures Inside(z, p) ==> z.width >= 0 && z.height >= 0
  {
    z.x <= p.x <= z.x + z.width && z.y <= p.y <= z.y + z.height
  }

  /** Both corners of the zone count as inside. */
  lemma CornersInside(z: Zone)
    requires z.width >= 0 && z.height >= 0
    ensures Inside(z, Point(z.x, z.y)) && Inside(z, Point(z.x + z.width, z.y + z.height))
    ensures !Inside(z, Point(z.x - 1, z.y)) && !Inside(z, Point(z.x + z.width + 1, z.y + z.height))
  {
  }

  /**
   * Path stored in the tables for capture `id` on `date`; under `media/`
   * it is the file the screenshot is written to.
   */
  function ScreenshotPath(id: int, date: string): (p: string)
    ensures MediaFile(p) == "media/screenshots/screenshot_" + IntToString(id) + "_" + date + ".png"
  {
    "screenshots/screenshot_" + IntToString(id) + "_" + date + ".png"
  }

  lemma MiddleOfConcat<T>(a: seq<T>, b: seq<T>, c: seq<T>)
    ensures (a + b + c)[|a|..|a| + |b|] == b
  {
  }

  /** Captures with distinct ids on the same date are stored under distinct paths: none overwrites another. */
  lemma ScreenshotPathsDistinct(a: int, b: int, date: string)
    requires a != b
    ensures ScreenshotPath(a, date) != ScreenshotPath(b, date)
  {
    var prefix, suffix := "screenshots/screenshot_", "_" + date + ".png";
    var sa, sb := IntToString(a), IntToString(b);
    assert ScreenshotPath(a, date) == prefix + sa + suffix;
    assert ScreenshotPath(b, date) == prefix + sb + suffix;
    if prefix + sa + suffix == prefix + sb + suffix {
      assert |sa| == |sb|;
      MiddleOfConcat(prefix, sa, suffix);
      MiddleOfConcat(prefix, sb, suffix);
      IntToStringInjective(a, b);
    }
  }

  /** File a stored path names on disk. */
  function MediaFile(path: string): string
  {
    "media/" + path
  }

  // ----- Python slicing, as used to crop the resized frame -----

  /** Where a slice bound `i` lands in a sequence of length `n`: negative bounds count from the end, all are clamped. */
  function SliceIndex(i: int, n: nat): (k: nat)
    ensures k <= n
    ensures 0 <= i <= n ==> k == i
  {
    if i < 0 then (if i + n < 0 then 0 else i + n)
    else if i > n then n
    else i
  }

  /**
   * `s[i:j]`: never longer than `s`; for non-negative bounds at most
   * `j - i` long, and the plain subsequence when both are in range.
   */
  function Slice<T>(s: seq<T>, i: int, j: int): (t: seq<T>)
    ensures |t| <= |s|
    ensures 0 <= i <= j ==> |t| <= j - i
    ensures 0 <= j <= i ==> t == []
    ensures 0 <= i <= j <= |s| ==> t == s[i..j]
  {
    var lo, hi := SliceIndex(i, |s|), SliceIndex(j, |s|);
    if lo < hi then s[lo..hi] else []
  }

  /** `image[y:y+height, x:x+width]`. */
  function Crop(img: Image, z: Zone): (c: Image)
    ensures |c| <= |img|
    ensures 0 <= z.y && 0 <= z.height ==> |c| <= z.height
    ensures 0 <= z.x && 0 <= z.width ==> forall r :: 0 <= r < |c| ==> |c[r]| <= z.width
  {
    var rows := Slice(img, z.y, z.y + z.height);
    seq(|rows|, r requires 0 <= r < |rows| => Slice(rows[r], z.x, z.x + z.width))
  }

  /**
   * A zone lying within the resized frame yields a `height x width`
   * screenshot holding exactly the zone's pixels of the resized frame.
   */
  lemma CropOfDisplay(img: Image, z: Zone)
    requires |img| == DisplayHeight
    requires forall r :: 0 <= r < |img| ==> |img[r]| == DisplayWidth
    requires 0 <= z.x && 0 <= z.width && z.x + z.width <= DisplayWidth
    requires 0 <= z.y && 0 <= z.height && z.y + z.height <= DisplayHeight
    ensures |Crop(img, z)| == z.height
    ensures forall r :: 0 <= r < z.height ==> |Crop(img, z)[r]| == z.width
    ensures forall r, c :: 0 <= r < z.height && 0 <= c < z.width ==> Crop(img, z)[r][c] == img[z.y + r][z.x + c]
  {
    var rows := img[z.y..z.y + z.height];
    assert Slice(img, z.y, z.y + z.height) == rows;
    forall r | 0 <= r < z.height
      ensures Crop(img, z)[r] == img[z.y + r][z.x..z.x + z.width]
    {
      assert rows[r] == img[z.y + r];
    }
  }

  // ----- the trigger, as a specification -----

  /** An image with no pixels: no rows, or rows of width 0. Writing one makes `cv2.imwrite` raise. */
  predicate EmptyImage(img: Image)
  {
    forall r :: 0 <= r < |img| ==> img[r] == []
  }

  /**
   * Against a DisplayWidth-wide frame, a zone starting at or beyond the
   * right edge crops to an empty image, however far into the native frame
   * its landmarks reach.
   */
  lemma CropBeyondDisplay(img: Image, z: Zone)
    requires forall r :: 0 <= r < |img| ==> |img[r]| == DisplayWidth
    requires z.x >= DisplayWidth
    ensures EmptyImage(Crop(img, z))
  {
    var c := Crop(img, z);
    forall r | 0 <= r < |c|
      ensures c[r] == []
    {
      var rows := Slice(img, z.y, z.y + z.height);
      assert rows[r] in img;
    }
  }

  function RowOf(c: Capture): Row
  {
    Row(c.id, c.date, c.path)
  }

  /** The two inserts, then the image write, which does not happen when the screenshot is empty. */
  function CaptureEffects(c: Capture): seq<Effect>
  {
    [InsertRow(TemplateScreenshots, RowOf(c)), InsertRow(EventsImages, RowOf(c))] +
    (if EmptyImage(c.screenshot) then [] else [WriteImage(MediaFile(c.path), c.screenshot)])
  }

  /**
   * A capture at time `now`: it is appended, numbered above every stored
   * id, the same row goes into both tables, and its screenshot is the
   * zone of the resized frame. When that screenshot is empty the write
   * raises after both inserts and the worker dies.
   */
  function Fire(z: Zone, f: Frame, s: Session, now: int): (r: Session)
    ensures r.last == now
    ensures s.captures <= r.captures && |r.captures| == |s.captures| + 1
    ensures var c := r.captures[|s.captures|];
      (forall i :: 0 <= i < |s.templates| ==> s.templates[i].id < c.id) &&
      c.date == f.date && c.time == now && c.screenshot == Crop(f.display, z) &&
      r.templates == s.templates + [Row(c.id, f.date, c.path)] &&
      r.events == s.events + [Row(c.id, f.date, c.path)] &&
      (r.crashed <==> EmptyImage(c.screenshot))
  {
    NextIdIsFresh(s.templates);
    var id := GetId(s.templates) + 1;
    var c := Capture(id, f.date, ScreenshotPath(id, f.date), now, Crop(f.display, z));
    Session(now, s.templates + [RowOf(c)], s.events + [RowOf(c)], s.captures + [c],
            s.effects + CaptureEffects(c), EmptyImage(c.screenshot))
  }

  /**
   * The check made for one landmark: a live worker captures exactly when
   * the landmark is inside the zone and ScreenInterval has passed since
   * the last capture; without a capture nothing changes. A dead worker
   * checks nothing.
   */
  function Check(z: Zone, f: Frame, s: Session, lm: Landmark): (r: Session)
    ensures s.captures <= r.captures && |r.captures| <= |s.captures| + 1
    ensures |r.captures| > |s.captures| <==> !s.crashed && Inside(z, lm.at) && lm.clock - s.last >= ScreenInterval
    ensures |r.captures| == |s.captures| ==> r == s
  {
    if s.crashed then s
    else if Inside(z, lm.at) && lm.clock - s.last >= ScreenInterval then Fire(z, f, s, lm.clock)
    else s
  }

  /**
   * The checks for the landmarks of one frame, in order: captures are
   * only appended, at most one per landmark, and a frame that captures
   * nothing changes nothing.
   */
  function ProcessLandmarks(z: Zone, f: Frame, s: Session, lms: seq<Landmark>): (r: Session)
    ensures s.captures <= r.captures && |r.captures| <= |s.captures| + |lms|
    ensures |r.captures| == |s.captures| ==> r == s
    decreases |lms|
  {
    if lms == [] then s else ProcessLandmarks(z, f, Check(z, f, s, lms[0]), lms[1..])
  }

  /** Frames processed in order: captures are only appended, and a run that captures nothing changes nothing. */
  function ProcessFrames(z: Zone, s: Session, frames: seq<Frame>): (r: Session)
    ensures s.captures <= r.captures
    ensures |r.captures| == |s.captures| ==> r == s
    decreases |frames|
  {
    if frames == [] then s
    else ProcessFrames(z, ProcessLandmarks(z, frames[0], s, frames[0].landmarks), frames[1..])
  }

  /** A dead worker processes no more landmarks. */
  lemma {:induction false} CrashedLandmarks(z: Zone, f: Frame, s: Session, lms: seq<Landmark>)
    requires s.crashed
    ensures ProcessLandmarks(z, f, s, lms) == s
    decreases |lms|
  {
    if lms != [] {
      CrashedLandmarks(z, f, s, lms[1..]);
    }
  }

  /** A dead worker processes no more frames. */
  lemma {:induction false} CrashedFrames(z: Zone, s: Session, frames: seq<Frame>)
    requires s.crashed
    ensures ProcessFrames(z, s, frames) == s
    decreases |frames|
  {
    if frames != [] {
      CrashedLandmarks(z, frames[0], s, frames[0].landmarks);
      CrashedFrames(z, s, frames[1..]);
    }
  }

  /** Processing one more frame after a run is the run over the longer sequence. */
  lemma {:induction false} FramesSnoc(z: Zone, s: Session, frames: seq<Frame>, f: Frame)
    ensures ProcessFrames(z, s, frames + [f]) == ProcessLandmarks(z, f, ProcessFrames(z, s, frames), f.landmarks)
    decreases |frames|
  {
    if frames == [] {
      assert [f][1..] == [];
    } else {
      assert (frames + [f])[1..] == frames[1..] + [f];
      FramesSnoc(z, ProcessLandmarks(z, frames[0], s, frames[0].landmarks), frames[1..], f);
    }
  }

  lemma FramesPrefixStep(z: Zone, s: Session, frames: seq<Frame>, p: nat)
    requires p < |frames|
    ensures ProcessFrames(z, s, frames[..p + 1]) ==
            ProcessLandmarks(z, frames[p], ProcessFrames(z, s, frames[..p]), frames[p].landmarks)
  {
    assert frames[..p + 1] == frames[..p] + [frames[p]];
    FramesSnoc(z, s, frames[..p], frames[p]);
  }

  /** One iteration of a run keeps both the done-so-far and the still-to-do view of it. */
  lemma RunStep(z: Zone, s0: Session, m: Session, frames: seq<Frame>, p: nat, n: nat)
    requires p < n <= |frames|
    requires m == ProcessFrames(z, s0, frames[..p])
    requires ProcessFrames(z, m, frames[p..n]) == ProcessFrames(z, s0, frames[..n])
    ensures var m' := ProcessLandmarks(z, frames[p], m, frames[p].landmarks);
      m' == ProcessFrames(z, s0, frames[..p + 1]) &&
      ProcessFrames(z, m', frames[p + 1..n]) == ProcessFrames(z, s0, frames[..n])
  {
    var m' := ProcessLandmarks(z, frames[p], m, frames[p].landmarks);
    FramesPrefixStep(z, s0, frames, p);
    assert ProcessFrames(z, m, frames[p..n]) == ProcessFrames(z, m', frames[p + 1..n]) by {
      assert frames[p..n][0] == frames[p];
      assert frames[p..n][1..] == frames[p + 1..n];
    }
  }

  /** Number of frames a run processes: it stops at the stop flag or when the source runs dry. */
  function Processed(stopAt: nat, available: nat): nat
  {
    if stopAt < available then stopAt else available
  }

  /** The state at the start of a session: `last_screen_time` is 0, nothing captured yet. */
  function StartSession(templates: seq<Row>, events: seq<Row>): Session
  {
    Session(0, templates, events, [], [], false)
  }

  // ----- what a run promises -----

  /** The rows a sequence of captures inserts into each table. */
  function RowsOf(caps: seq<Capture>): (rows: seq<Row>)
    ensures |rows| == |caps|
  {
    if caps == [] then [] else RowsOf(caps[..|caps| - 1]) + [RowOf(caps[|caps| - 1])]
  }

  lemma {:induction false} RowsOfAt(caps: seq<Capture>)
    ensures forall k :: 0 <= k < |caps| ==> RowsOf(caps)[k] == RowOf(caps[k])
  {
    if caps != [] {
      RowsOfAt(caps[..|caps| - 1]);
    }
  }

  /** The effects of a sequence of captures: two or three per capture. */
  function EffectsOf(caps: seq<Capture>): (effects: seq<Effect>)
    ensures 2 * |caps| <= |effects| <= 3 * |caps|
  {
    if caps == [] then [] else EffectsOf(caps[..|caps| - 1]) + CaptureEffects(caps[|caps| - 1])
  }

  /**
   * Captures `caps`, made from a state whose `last_screen_time` was
   * `last0`, leave it at `last`: it changes only on a capture, to that
   * capture's time, and each capture comes at least ScreenInterval after
   * the previous one (or after `last0`).
   */
  ghost predicate Debounced(last0: int, caps: seq<Capture>, last: int)
  {
    (caps == [] ==> last == last0) &&
    (caps != [] ==> caps[0].time - last0 >= ScreenInterval && last == caps[|caps| - 1].time) &&
    (forall i, j {:trigger caps[i], caps[j]} :: 0 <= i && j == i + 1 && j < |caps| ==>
       caps[j].time - caps[i].time >= ScreenInterval)
  }

  /**
   * `r` is reached from `s` by zero or more captures: the captures are
   * appended, debounced, numbered from `GetId(s.templates) + 1` without
   * gaps, each one's row is appended to both tables, and its three effects
   * are logged.
   */
  ghost predicate Extends(s: Session, r: Session)
  {
    s.captures <= r.captures &&
    var added := r.captures[|s.captures|..];
    Debounced(s.last, added, r.last) &&
    (forall k :: 0 <= k < |added| ==> added[k].id == GetId(s.templates) + 1 + k) &&
    (forall k :: 0 <= k < |added| ==> added[k].path == ScreenshotPath(added[k].id, added[k].date)) &&
    GetId(r.templates) == GetId(s.templates) + |added| &&
    r.templates == s.templates + RowsOf(added) &&
    r.events == s.events + RowsOf(added) &&
    r.effects == s.effects + EffectsOf(added)
  }

  /** A capture made at least ScreenInterval after `last` keeps the captures debounced. */
  lemma DebouncedSnoc(last0: int, caps: seq<Capture>, last: int, c: Capture)
    requires Debounced(last0, caps, last)
    requires c.time - last >= ScreenInterval
    ensures Debounced(last0, caps + [c], c.time)
  {
    var caps' := caps + [c];
    forall i, j | 0 <= i && j == i + 1 && j < |caps'|
      ensures caps'[j].time - caps'[i].time >= ScreenInterval
    {
      if j < |caps| {
        assert caps'[j] == caps[j] && caps'[i] == caps[i];
      }
    }
  }

  lemma RowsSnoc(base: seq<Row>, added: seq<Capture>, c: Capture)
    ensures base + RowsOf(added) + [RowOf(c)] == base + RowsOf(added + [c])
  {
    assert (added + [c])[..|added|] == added;
  }

  lemma EffectsSnoc(base: seq<Effect>, added: seq<Capture>, c: Capture)
    ensures base + EffectsOf(added) + CaptureEffects(c) == base + EffectsOf(added + [c])
  {
    assert (added + [c])[..|added|] == added;
  }

  lemma NumberingSnoc(first: int, added: seq<Capture>, c: Capture)
    requires forall k :: 0 <= k < |added| ==> added[k].id == first + k
    requires forall k :: 0 <= k < |added| ==> added[k].path == ScreenshotPath(added[k].id, added[k].date)
    requires c.id == first + |added| && c.path == ScreenshotPath(c.id, c.date)
    ensures forall k :: 0 <= k < |added + [c]| ==> (added + [c])[k].id == first + k
    ensures forall k :: 0 <= k < |added + [c]| ==> (added + [c])[k].path == ScreenshotPath((added + [c])[k].id, (added + [c])[k].date)
  {
    forall k | 0 <= k < |added + [c]|
      ensures (added + [c])[k].id == first + k
      ensures (added + [c])[k].path == ScreenshotPath((added + [c])[k].id, (added + [c])[k].date)
    {
      if k < |added| {
        assert (added + [c])[k] == added[k];
      }
    }
  }

  /** One more capture, numbered and timed as a check makes it, keeps `Extends`. */
  lemma ExtendsSnoc(s: Session, m: Session, c: Capture)
    requires Extends(s, m)
    requires c.id == GetId(m.templates) + 1 && c.path == ScreenshotPath(c.id, c.date)
    requires c.time - m.last >= ScreenInterval
    ensures Extends(s, Session(c.time, m.templates + [RowOf(c)], m.events + [RowOf(c)],
                               m.captures + [c], m.effects + CaptureEffects(c), EmptyImage(c.screenshot)))
  {
    var added := m.captures[|s.captures|..];
    assert (m.captures + [c])[|s.captures|..] == added + [c];
    assert Debounced(s.last, added + [c], c.time) by {
      DebouncedSnoc(s.last, added, m.last, c);
    }
    assert GetId(m.templates + [RowOf(c)]) == GetId(s.templates) + |added + [c]| by {
      GetIdAfterAllocation(m.templates, c.date, c.path);
    }
    assert m.templates + [RowOf(c)] == s.templates + RowsOf(added + [c]) by {
      RowsSnoc(s.templates, added, c);
    }
    assert m.events + [RowOf(c)] == s.events + RowsOf(added + [c]) by {
      RowsSnoc(s.events, added, c);
    }
    assert m.effects + CaptureEffects(c) == s.effects + EffectsOf(added + [c]) by {
      EffectsSnoc(s.effects, added, c);
    }
    NumberingSnoc(GetId(s.templates) + 1, added, c);
  }

  /** One check keeps `Extends`. */
  lemma CheckExtends(s: Session, m: Session, z: Zone, f: Frame, lm: Landmark)
    requires Extends(s, m)
    ensures Extends(s, Check(z, f, m, lm))
  {
    if !m.crashed && Inside(z, lm.at) && lm.clock - m.last >= ScreenInterval {
      var id := GetId(m.templates) + 1;
      var c := Capture(id, f.date, ScreenshotPath(id, f.date), lm.clock, Crop(f.display, z));
      var r := Session(c.time, m.templates + [RowOf(c)], m.events + [RowOf(c)],
                       m.captures + [c], m.effects + CaptureEffects(c), EmptyImage(c.screenshot));
      assert Extends(s, r) by {
        ExtendsSnoc(s, m, c);
      }
      assert Check(z, f, m, lm) == r;
    } else {
      assert Check(z, f, m, lm) == m;
    }
  }

  /** The checks of one frame keep `Extends`. */
  lemma {:induction false} LandmarksExtend(s: Session, m: Session, z: Zone, f: Frame, lms: seq<Landmark>)
    requires Extends(s, m)
    ensures Extends(s, ProcessLandmarks(z, f, m, lms))
    decreases |lms|
  {
    if lms != [] {
      CheckExtends(s, m, z, f, lms[0]);
      LandmarksExtend(s, Check(z, f, m, lms[0]), z, f, lms[1..]);
    }
  }

  /** A run over frames keeps `Extends`. */
  lemma {:induction false} FramesExtend(s: Session, m: Session, z: Zone, frames: seq<Frame>)
    requires Extends(s, m)
    ensures Extends(s, ProcessFrames(z, m, frames))
    decreases |frames|
  {
    if frames != [] {
      LandmarksExtend(s, m, z, frames[0], frames[0].landmarks);
      FramesExtend(s, ProcessLandmarks(z, frames[0], m, frames[0].landmarks), z, frames[1..]);
    }
  }

  /**
   * A run from any state: captures are only appended and their ids
   * continue the stored maximum without gaps; `last_screen_time` changes
   * only on a capture, to that capture's time; captures are at least
   * ScreenInterval apart; both tables receive exactly the captures' rows,
   * and the log holds the captures' effects.
   */
  lemma RunExtends(z: Zone, s: Session, frames: seq<Frame>)
    ensures Extends(s, ProcessFrames(z, s, frames))
  {
    assert s.captures[|s.captures|..] == [];
    assert s.templates + RowsOf([]) == s.templates;
    assert s.events + RowsOf([]) == s.events;
    assert s.effects + EffectsOf([]) == s.effects;
    FramesExtend(s, s, z, frames);
  }

  /** Debounced captures are pairwise at least ScreenInterval apart per capture in between. */
  lemma {:induction false} DebouncedApart(last0: int, caps: seq<Capture>, last: int, i: int, j: int)
    requires Debounced(last0, caps, last)
    requires 0 <= i < j < |caps|
    ensures caps[j].time - caps[i].time >= ScreenInterval * (j - i)
    decreases j - i
  {
    if j > i + 1 {
      DebouncedApart(last0, caps, last, i, j - 1);
      assert caps[j].time - caps[j - 1].time >= ScreenInterval;
    } else {
      assert caps[j].time - caps[i].time >= ScreenInterval;
    }
  }

  /**
   * A session from the start state on tables `templates`/`events`: any two
   * of its captures are at least five seconds apart (more, the more lie in
   * between); the first comes no earlier than five seconds after time 0.
   */
  lemma SessionCapturesApart(z: Zone, templates: seq<Row>, events: seq<Row>, frames: seq<Frame>)
    ensures var caps := ProcessFrames(z, StartSession(templates, events), frames).captures;
      (caps != [] ==> caps[0].time >= ScreenInterval) &&
      forall i, j :: 0 <= i < j < |caps| ==> caps[j].time - caps[i].time >= ScreenInterval * (j - i)
  {
    var r := ProcessFrames(z, StartSession(templates, events), frames);
    RunExtends(z, StartSession(templates, events), frames);
    assert r.captures[0..] == r.captures;
    forall i, j | 0 <= i < j < |r.captures|
      ensures r.captures[j].time - r.captures[i].time >= ScreenInterval * (j - i)
    {
      DebouncedApart(0, r.captures, r.last, i, j);
    }
  }

  /**
   * Starting from empty tables, N captures get the ids 1..N in order, and
   * both tables then hold exactly their rows, ids 1..N.
   */
  lemma IdsFromEmpty(z: Zone, frames: seq<Frame>)
    ensures var r := ProcessFrames(z, StartSession([], []), frames);
      (forall k :: 0 <= k < |r.captures| ==> r.captures[k].id == k + 1) &&
      |r.templates| == |r.captures| && r.events == r.templates &&
      (forall k :: 0 <= k < |r.templates| ==> r.templates[k].id == k + 1)
  {
    var r := ProcessFrames(z, StartSession([], []), frames);
    RunExtends(z, StartSession([], []), frames);
    assert r.captures[0..] == r.captures;
    RowsOfAt(r.captures);
  }

  /** Every capture of a frame is witnessed by a landmark of it that lies inside the zone, read at that time. */
  lemma {:induction false} CapturesWitnessed(z: Zone, f: Frame, s: Session, lms: seq<Landmark>)
    ensures var r := ProcessLandmarks(z, f, s, lms);
      s.captures <= r.captures &&
      forall k :: |s.captures| <= k < |r.captures| ==>
        r.captures[k].date == f.date && r.captures[k].screenshot == Crop(f.display, z) &&
        exists i :: 0 <= i < |lms| && Inside(z, lms[i].at) && lms[i].clock == r.captures[k].time
    decreases |lms|
  {
    if lms != [] {
      var m := Check(z, f, s, lms[0]);
      var r := ProcessLandmarks(z, f, s, lms);
      CapturesWitnessed(z, f, m, lms[1..]);
      assert r == ProcessLandmarks(z, f, m, lms[1..]);
      forall k | |s.captures| <= k < |r.captures|
        ensures exists i :: 0 <= i < |lms| && Inside(z, lms[i].at) && lms[i].clock == r.captures[k].time
      {
        if k < |m.captures| {
          assert Inside(z, lms[0].at) && lms[0].clock == r.captures[k].time;
        } else {
          var i :| 0 <= i < |lms[1..]| && Inside(z, lms[1..][i].at) && lms[1..][i].clock == r.captures[k].time;
          assert lms[1..][i] == lms[i + 1];
        }
      }
    }
  }

  /**
   * A frame captures exactly when one of its landmarks lies inside the
   * zone at a clock reading at least ScreenInterval after the last capture
   * made before the frame.
   */
  lemma {:induction false} FiresWhenDue(z: Zone, f: Frame, s: Session, lms: seq<Landmark>)
    ensures |ProcessLandmarks(z, f, s, lms).captures| > |s.captures| <==>
      !s.crashed && exists i :: 0 <= i < |lms| && Inside(z, lms[i].at) && lms[i].clock - s.last >= ScreenInterval
    decreases |lms|
  {
    if s.crashed {
      CrashedLandmarks(z, f, s, lms);
    } else if lms != [] {
      var m := Check(z, f, s, lms[0]);
      if m == s {
        FiresWhenDue(z, f, s, lms[1..]);
        if exists i :: 0 <= i < |lms| && Inside(z, lms[i].at) && lms[i].clock - s.last >= ScreenInterval {
          var i :| 0 <= i < |lms| && Inside(z, lms[i].at) && lms[i].clock - s.last >= ScreenInterval;
          assert i != 0;
          assert lms[1..][i - 1] == lms[i];
        }
        if exists i :: 0 <= i < |lms[1..]| && Inside(z, lms[1..][i].at) && lms[1..][i].clock - s.last >= ScreenInterval {
          var i :| 0 <= i < |lms[1..]| && Inside(z, lms[1..][i].at) && lms[1..][i].clock - s.last >= ScreenInterval;
          assert lms[i + 1] == lms[1..][i];
        }
      } else {
        assert Inside(z, lms[0].at) && lms[0].clock - s.last >= ScreenInterval;
      }
    }
  }

  /**
   * The worker is dead exactly when its last capture's screenshot was
   * empty, and every earlier capture had its image written.
   */
  ghost predicate CrashMarked(s: Session)
  {
    (s.crashed <==> s.captures != [] && EmptyImage(s.captures[|s.captures| - 1].screenshot)) &&
    forall k :: 0 <= k < |s.captures| - 1 ==> !EmptyImage(s.captures[k].screenshot)
  }

  lemma CheckKeepsCrashMarked(z: Zone, f: Frame, s: Session, lm: Landmark)
    requires CrashMarked(s)
    ensures CrashMarked(Check(z, f, s, lm))
  {
    var r := Check(z, f, s, lm);
    if |r.captures| > |s.captures| {
      forall k | 0 <= k < |r.captures| - 1
        ensures !EmptyImage(r.captures[k].screenshot)
      {
        assert r.captures[k] == s.captures[k];
      }
    }
  }

  lemma {:induction false} LandmarksKeepCrashMarked(z: Zone, f: Frame, s: Session, lms: seq<Landmark>)
    requires CrashMarked(s)
    ensures CrashMarked(ProcessLandmarks(z, f, s, lms))
    decreases |lms|
  {
    if lms != [] {
      CheckKeepsCrashMarked(z, f, s, lms[0]);
      LandmarksKeepCrashMarked(z, f, Check(z, f, s, lms[0]), lms[1..]);
    }
  }

  lemma {:induction false} FramesKeepCrashMarked(z: Zone, s: Session, frames: seq<Frame>)
    requires CrashMarked(s)
    ensures CrashMarked(ProcessFrames(z, s, frames))
    decreases |frames|
  {
    if frames != [] {
      LandmarksKeepCrashMarked(z, frames[0], s, frames[0].landmarks);
      FramesKeepCrashMarked(z, ProcessLandmarks(z, frames[0], s, frames[0].landmarks), frames[1..]);
    }
  }

  /**
   * In a session, only the last capture can lack its image file: the
   * worker dies exactly when a capture's screenshot is empty, and
   * nothing is captured after that.
   */
  lemma SessionCrashIsLast(z: Zone, templates: seq<Row>, events: seq<Row>, frames: seq<Frame>)
    ensures var r := ProcessFrames(z, StartSession(templates, events), frames);
      (r.crashed <==> r.captures != [] && EmptyImage(r.captures[|r.captures| - 1].screenshot)) &&
      forall k :: 0 <= k < |r.captures| - 1 ==> !EmptyImage(r.captures[k].screenshot)
  {
    FramesKeepCrashMarked(z, StartSession(templates, events), frames);
  }

  /** A frame with no landmark inside the zone changes nothing. */
  lemma NothingInsideNoChange(z: Zone, f: Frame, s: Session)
    requires forall i :: 0 <= i < |f.landmarks| ==> !Inside(z, f.landmarks[i].at)
    ensures ProcessLandmarks(z, f, s, f.landmarks) == s
  {
    var r := ProcessLandmarks(z, f, s, f.landmarks);
    CapturesWitnessed(z, f, s, f.landmarks);
    RunExtends(z, s, [f]);
    assert ProcessFrames(z, s, [f]) == r;
    assert r.captures[|s.captures|..] == [];
    assert s.captures == r.captures;
  }

  /** Once a capture was made at time `t`, further checks read at `t` fire nothing. */
  lemma {:induction false} QuietAtSameTime(z: Zone, f: Frame, s: Session, lms: seq<Landmark>, t: int)
    requires s.last == t
    requires forall i :: 0 <= i < |lms| ==> lms[i].clock == t
    ensures ProcessLandmarks(z, f, s, lms) == s
    decreases |lms|
  {
    if lms != [] {
      assert Check(z, f, s, lms[0]) == s;
      QuietAtSameTime(z, f, s, lms[1..], t);
    }
  }

  /** With a single clock reading for the whole frame, a frame fires at most one capture. */
  lemma {:induction false} OneCapturePerFrame(z: Zone, f: Frame, s: Session, lms: seq<Landmark>, t: int)
    requires forall i :: 0 <= i < |lms| ==> lms[i].clock == t
    ensures |ProcessLandmarks(z, f, s, lms).captures| <= |s.captures| + 1
    decreases |lms|
  {
    if lms != [] {
      var m := Check(z, f, s, lms[0]);
      if m == s {
        OneCapturePerFrame(z, f, s, lms[1..], t);
      } else {
        QuietAtSameTime(z, f, m, lms[1..], t);
      }
    }
  }

  // ----- the loop itself -----

  /**
   * The state `process_video` keeps for one session, and the store it
   * writes to. The captures, the effect log and whether the worker has
   * died are ghost: they record what happened, and no variable of the
   * worker holds them.
   */
  class Monitor {
    const zone: Zone
    var lastScreenTime: int
    const store: RecordStore
    ghost var captures: seq<Capture>
    ghost var effects: seq<Effect>
    ghost var crashed: bool

    ghost function State(): Session
      reads this, store
    {
      Session(lastScreenTime, store.templates, store.events, captures, effects, crashed)
    }

    /** Loads the zone (falling back to the default) and sets `last_screen_time` to 0. */
    constructor (settings: Option<Settings>, store: RecordStore)
      ensures zone == LoadZone(settings) && this.store == store
      ensures State() == StartSession(store.templates, store.events)
    {
      zone := LoadZone(settings);
      this.store := store;
      lastScreenTime := 0;
      captures := [];
      effects := [];
      crashed := false;
    }

    /**
     * The loop: stop flag at the top, then the next frame, then its
     * landmarks. `raised` reports that a failed image write ended the
     * worker in the middle of frame `processed - 1`.
     */
    method Run(frames: seq<Frame>, stopAt: nat) returns (processed: nat, raised: bool)
      requires !crashed
      modifies this, store
      ensures processed <= Processed(stopAt, |frames|)
      ensures raised == State().crashed
      ensures !raised ==> processed == Processed(stopAt, |frames|)
      ensures raised ==> processed > 0
      ensures State() == ProcessFrames(zone, old(State()), frames[..processed])
      ensures State() == ProcessFrames(zone, old(State()), frames[..Processed(stopAt, |frames|)])
    {
      var n := Processed(stopAt, |frames|);
      processed, raised := 0, false;
      while true
        invariant processed <= n
        invariant !raised && !crashed
        invariant State() == ProcessFrames(zone, old(State()), frames[..processed])
        invariant ProcessFrames(zone, State(), frames[processed..n]) == ProcessFrames(zone, old(State()), frames[..n])
        decreases n - processed
      {
        if processed >= stopAt {
          break;                      // stop_event.is_set()
        }
        if processed == |frames| {
          break;                      // capture.read() returned no frame
        }
        var frame := frames[processed];
        ghost var before := State();
        raised := ProcessFrame(frame);
        RunStep(zone, old(State()), before, frames, processed, n);
        processed := processed + 1;
        if raised {
          CrashedFrames(zone, State(), frames[processed..n]);
          break;                      // cv2.imwrite raised
        }
      }
      if !raised {
        assert frames[processed..n] == [];
      }
    }

    /**
     * The landmarks of one frame, each checked against the zone in turn,
     * until a failed image write raises.
     */
    method ProcessFrame(f: Frame) returns (raised: bool)
      requires !crashed
      modifies this, store
      ensures raised == State().crashed
      ensures State() == ProcessLandmarks(zone, f, old(State()), f.landmarks)
    {
      var j := 0;
      raised := false;
      while j < |f.landmarks| && !raised
        invariant 0 <= j <= |f.landmarks|
        invariant raised == crashed
        invariant ProcessLandmarks(zone, f, State(), f.landmarks[j..]) == ProcessLandmarks(zone, f, old(State()), f.landmarks)
      {
        var landmark := f.landmarks[j];
        assert f.landmarks[j..][1..] == f.landmarks[j + 1..];
        if Inside(zone, landmark.at) {
          var currentTime := landmark.clock;
          if currentTime - lastScreenTime >= ScreenInterval {
            raised := TakeScreenshot(f, currentTime);
          }
        }
        j := j + 1;
      }
      if raised {
        CrashedLandmarks(zone, f, State(), f.landmarks[j..]);
      } else {
        assert f.landmarks[j..] == [];
      }
    }

    /**
     * The capture sequence: crop, allocate the id, insert into both
     * tables, write the file; the write raises on an empty screenshot.
     */
    method TakeScreenshot(f: Frame, now: int) returns (raised: bool)
      requires !crashed
      modifies this, store
      ensures raised == State().crashed
      ensures State() == Fire(zone, f, old(State()), now)
    {
      lastScreenTime := now;
      var screenshot := Crop(f.display, zone);
      var count := GetId(store.templates);
      var path := ScreenshotPath(count + 1, f.date);
      store.Insert(TemplateScreenshots, f.date, path, count + 1);
      store.Insert(EventsImages, f.date, path, count + 1);
      effects := effects + [InsertRow(TemplateScreenshots, Row(count + 1, f.date, path)),
                            InsertRow(EventsImages, Row(count + 1, f.date, path))];
      ghost var c := Capture(count + 1, f.date, path, now, screenshot);
      raised := forall r :: 0 <= r < |screenshot| ==> screenshot[r] == [];
      assert raised == EmptyImage(c.screenshot);
      if !raised {
        effects := effects + [WriteImage(MediaFile(path), screenshot)];
      }
      assert effects == old(effects) + CaptureEffects(c);
      captures := captures + [c];
      crashed := raised;
    }
  }
}
