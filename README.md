# Zone-dwell capture: a Dafny model

This project models the core of a small person-detection service. A worker
process reads video frames. It checks every pose landmark of a frame against
one configured rectangle, the zone. When a landmark is inside and at least
five seconds have passed since the last capture, it takes a capture. A
capture allocates the next id, inserts the same `(id, date, path)` row into
the SQLite tables `template_screenshots` and `events_images`, and writes the
cropped screenshot under `media/`. An HTTP layer starts and stops that
worker, and lists captures by date after validating the date.

Modules, one per source file:

- `Store` (`store.dfy`, from `sqlite.py`): the two tables as sequences of
  rows, in insertion order, inside class `RecordStore`. `insert` and `delete`
  are methods that change the tables. `select`, `select_all` and `get_id` are
  functions over a table's rows.
- `Monitor` (`monitor.dfy`, from `opencv.py`): `process_video`.
  - A pure specification: `Check` for one landmark, `ProcessLandmarks` for a
    frame, `ProcessFrames` for a run, all over a `Session` value. It holds
    `last_screen_time`, both tables, the captures and the effect log.
  - Class `Monitor` holds the zone, `last_screen_time` and the store. The
    captures, the effect log and whether the worker has died are ghost
    fields: they record what happened, and no variable of the worker holds
    them. Its loops (`Run`, `ProcessFrame`) and the capture sequence
    (`TakeScreenshot`) are proved equal to that specification.
- `App` (`app.dfy`, from `main.py`): the date validator, the choice of the
  `/humans/{date}` reply, and class `Controller`. `Controller` holds the
  globals `video_process`, `stop_event` and `shared_counter`, with
  `start_camera` / `stop_camera` as its methods.
- `Decimal` (`decimal.dfy`): reading digit strings as numbers and writing
  numbers in decimal, shared by the file names and the date parser.
- `Wrappers` (`wrappers.dfy`): `Option` and `Result`.

Modelling choices:

- The clock is read per check, as in the code. Each landmark carries the
  value `time.time()` would return if that landmark is found inside. No
  ordering of readings is assumed; the cooldown properties hold without it.
  The one-capture-per-frame lemma takes the per-frame view: all readings of
  the frame are equal.
- The stop flag is an `Event` that is only ever set, never cleared. It is
  given as `stopAt`: the first iteration whose top-of-loop check sees it set.
  The frame source is a sequence, and reading past its end yields no frame.
- Containment is checked in the native frame's pixels, where the landmarks
  live. The screenshot is cut from the frame resized to 1280x720
  (`Frame.display`). The model keeps this mismatch as the code has it.
- Cropping follows Python slicing: a negative bound counts from the end, and
  bounds are clamped to the image.
- `last_screen_time` starts at 0 rather than at a "never captured" value. A
  capture therefore needs a clock reading of at least 5. With epoch-second
  clocks this is always true, but a script whose clock starts at 0 gets no
  capture at t=0.
- Within one capture, the code inserts both rows before it writes the image
  file. So for a moment a record points at a file that does not exist yet.
  The effect log (`CaptureEffects`) keeps that order.
- `cv2.imwrite` raises on an image with no pixels, and `process_video` does
  not catch it. A zone of width or height 0, or one lying beyond the
  1280x720 resize, gives such a crop. Landmarks are tested in native
  pixels, so on a wider camera a zone right of x = 1280 still fires. The
  model keeps this: both rows are inserted, no file is written, and the
  worker dies (`Session.crashed`). A dead worker checks no further
  landmark and reads no further frame. The methods report it as `raised`.
- `strptime('%Y-%m-%d')` is modelled on the regular expression CPython uses:
  - `%Y` is four digits;
  - `%m` is `1[0-2]`, `0[1-9]` or `[1-9]`;
  - `%d` is `3[01]`, `[12]` followed by a digit, `0[1-9]`, `[1-9]`, or a
    space followed by `[1-9]`;
  - nothing may follow the day field;
  - the date must then exist in the Gregorian calendar.

  So `2025-1-5` and `2025-01- 5` are accepted, and the accepted string is
  returned unchanged.

## Model

| member | source | states |
|---|---|---|
| Store.GetId | sqlite.py:43-55 | an empty table gives 0 (`max` of nothing raises, and the handler returns 0); what it returns otherwise is stated by `GetIdIsMax` |
| Store.GetIdIsMax | sqlite.py:43-55 | `get_id` is 0 on an empty table; otherwise it is an id stored in the table and no stored id exceeds it |
| Store.NextIdIsFresh | sqlite.py:50-55 | the allocated id `get_id() + 1` is larger than every stored id, so it collides with none |
| Store.GetIdAfterAllocation | sqlite.py:50-53 | after a row with id `get_id() + 1` is stored, `get_id` returns that id, so the next allocation is the next integer |
| Store.Select | sqlite.py:18-28 | a path is in the result exactly when some `template_screenshots` row has that date and that image; the result has at most one entry per row |
| Store.SelectAppend | sqlite.py:25-26 | one more row adds its path to `select(date)`, at the end, exactly when its date matches, so the result has one entry per matching row, in row order |
| Store.SelectEmpty | sqlite.py:25-26 | `select(date)` is empty exactly when no row carries that date |
| Store.SelectAll | sqlite.py:31-40 | one `(date, image)` pair per row, in row order |
| Store.RecordStore.Insert | sqlite.py:4-15 | appends exactly the row `(id, date, path)` to the named table and leaves the other table unchanged |
| Store.RecordStore.Delete | sqlite.py:58-65 | `events_images` becomes empty and `template_screenshots` is unchanged |
| Monitor.LoadZone | opencv.py:37-49 | the zone is the four settings values; it is exactly `(100, 100, 100, 100)` when the file is unreadable or a key is missing |
| Monitor.Inside | opencv.py:74-75 | a point can be inside only a zone of non-negative width and height (both comparisons are chained `<=`) |
| Monitor.CornersInside | opencv.py:74-75 | both corners of the zone are inside, because the intervals are closed; one pixel beyond either corner is outside |
| Monitor.Crop | opencv.py:82-84 | the slice never has more rows than the image; for a zone with non-negative origin and size it has at most `height` rows of at most `width` pixels |
| Monitor.CropOfDisplay | opencv.py:82-84 | for a zone inside the 1280x720 frame, the screenshot is `height` rows of `width` pixels, and pixel (r, c) is pixel (y+r, x+c) of the resized frame |
| Monitor.ScreenshotPath | opencv.py:88-91 | the path stored in both tables, under `media/`, is exactly the file the screenshot is written to |
| Monitor.ScreenshotPathsDistinct | opencv.py:88-91 | two different ids on the same date give different paths, so a capture never overwrites another's file |
| Monitor.Fire | opencv.py:79-91 | a capture sets `last_screen_time` to the reading, appends one capture whose id exceeds every stored id, appends the same row to both tables, and keeps the crop of the resized frame; the worker dies exactly when that crop is empty |
| Monitor.CropBeyondDisplay | opencv.py:71-84 | a zone starting at or right of x = 1280 crops the resized frame to an empty image, whatever the native frame's width |
| Monitor.Check | opencv.py:74-79 | in a live worker, one landmark check captures exactly when the landmark is inside and at least 5 s have passed since `last_screen_time`; at most one capture; without a capture the state is unchanged; a dead worker captures nothing |
| Monitor.CrashedLandmarks | opencv.py:70-91 | once the image write has raised, the remaining landmarks change nothing |
| Monitor.CrashedFrames | opencv.py:54-91 | once the image write has raised, no further frame changes anything |
| Monitor.SessionCrashIsLast | opencv.py:79-91 | in a session, the worker is dead exactly when its last capture's crop was empty, and every earlier capture had a non-empty crop, so only the last capture can lack its file |
| Monitor.FramesKeepCrashMarked | opencv.py:54-91 | processing frames keeps the invariant that the worker is dead exactly when the last capture has an empty crop, and no earlier capture does |
| Monitor.ProcessLandmarks | opencv.py:70-79 | the checks of a frame only append captures, at most one per landmark; a frame without a capture changes nothing |
| Monitor.ProcessFrames | opencv.py:54-62 | a run only appends captures; a run without a capture changes nothing |
| Monitor.FiresWhenDue | opencv.py:70-79 | a frame captures exactly when the worker is alive and one of its landmarks is inside at a reading at least 5 s after the `last_screen_time` the frame started with |
| Monitor.RunExtends | opencv.py:70-91 | a run only appends captures. Their ids run on from `get_id() + 1` without gaps. Each path is `screenshots/screenshot_<id>_<date>.png`. `last_screen_time` changes only on a capture, to that capture's time. Each capture comes at least 5 s after the previous one. Both tables receive exactly the captures' rows. Per capture, the log holds two inserts followed by the image write to `media/` + path, which is missing when the crop is empty |
| Monitor.DebouncedApart | opencv.py:76-79 | captures i < j of a debounced sequence are at least 5·(j−i) seconds apart |
| Monitor.SessionCapturesApart | opencv.py:51-79 | in a session started with `last_screen_time = 0`, the first capture is no earlier than time 5 and any two captures are at least 5 s apart |
| Monitor.IdsFromEmpty | opencv.py:86-89 | from empty tables, N captures get ids 1..N in order, and both tables then hold the same N rows with ids 1..N |
| Monitor.CapturesWitnessed | opencv.py:70-79 | every capture of a frame has a landmark of that frame inside the zone whose check read the capture's time; its screenshot is the crop of that frame and its date is the frame's date |
| Monitor.NothingInsideNoChange | opencv.py:70-79 | a frame with no landmark inside changes nothing: no capture, no row, no effect, same `last_screen_time` |
| Monitor.OneCapturePerFrame | opencv.py:76-79 | when every check of a frame reads the same time, the frame makes at most one capture |
| Monitor.Monitor.constructor | opencv.py:37-52 | the session starts with the loaded or default zone, `last_screen_time` = 0, no captures and a live worker |
| Monitor.Monitor.Run | opencv.py:54-91 | unless an image write raised, processes exactly min(stopAt, number of frames) frames: none once the stop flag is seen or the source runs dry. When a write raised, it stops right after the frame where that happened and reports it. Either way the new state is the specification's run over the frames it read, and also over all min(stopAt, number of frames) frames |
| Monitor.Monitor.ProcessFrame | opencv.py:66-91 | the state after a frame is the specification's in-order check of its landmarks, and it reports whether a write raised, after which no landmark is checked |
| Monitor.Monitor.TakeScreenshot | opencv.py:79-91 | a capture sets `last_screen_time`, allocates `get_id() + 1`, appends the same row to both tables, then writes the image; it raises, with no file written, exactly when the crop is empty |
| App.ParseDate | main.py:96-99 | an accepted string is four digits, `-`, a month field of one or two characters, `-`, a day field and nothing more, and the returned date is what those fields read, a real calendar date (month lengths, Gregorian leap years). A rejected string has no such reading that names a real date |
| App.ValidateDate | main.py:94-104 | accepts exactly the strings that parse with a year in 1970..2025, and returns the input unchanged; a parse failure and a year out of range are distinct errors |
| App.ParseIso | main.py:96-97 | any year 0..9999, month 0..99 and day 0..99 written as `YYYY-MM-DD` parses back to that date when it is a real date, and is rejected when it is not |
| App.ValidateIso | main.py:96-104 | on `YYYY-MM-DD` text, a date that is not real is a format error, and a real date is accepted exactly when its year is in 1970..2025 |
| App.ValidateExamples | main.py:96-104 | `2025-01-01` is accepted and `1969-12-31` fails the year check |
| App.ValidateBadFormatExamples | main.py:96-99 | `2025-13-01`, `2025-02-30` and `not-a-date` fail to parse |
| App.GetHumans | main.py:111-127 | an invalid date gives status 400 with the validator's error; otherwise the reply is the `select` paths when there are any, and the fixed "not found" message when there are none |
| App.GetHumansFound | main.py:120-125 | for a valid date, paths are listed exactly when some capture row has that date, and the "not found" message comes exactly when none has |
| App.Controller.constructor | main.py:22-24 | no handle at startup |
| App.Controller.Start | main.py:34-53 | with a live worker, replies "Обработка видео уже запущена" and changes nothing. Otherwise it installs a live worker, a clear stop event and a counter of 1, and replies "Обработка видео запущена". Any dropped handle was already dead, so at most one worker lives |
| App.Controller.Stop | main.py:60-84 | always empties `events_images` and keeps `template_screenshots`. Replies "Обработка видео не запущена" without a handle, "Обработка видео остановлена" otherwise. A live worker has its stop event set and is dead afterwards. All three globals end up None |
| App.StartTwice | main.py:41-53 | two successive starts: the second replies "already running", and exactly the current worker is alive |
| App.StopResets | main.py:67-84 | after any stop, `select_all('events_images')` is empty and no worker runs, when no worker writes during the stop (see Left out) |

## Left out

- Pose estimation (MediaPipe), colour conversion, resize interpolation,
  drawing and the preview window are outside the model. Frames arrive with
  integer pixel landmarks and with the resized image. Pressing `q` in the
  preview window also ends the loop; that exit is not modelled. Neither is
  the skeleton the code draws onto the frame before cropping.
- Floating-point landmark coordinates and `time.time()` are modelled as
  integers.
- `datetime.date.today()` is one value per frame. The code reads it
  separately for each insert and for the file name, which can differ across
  midnight.
- `Monitor.Monitor.Run`: a video source that cannot be opened is modelled as
  an empty frame source. A frame that cannot be read ends the source.
- `Store.GetIdIsMax`: the "unreadable table" path of `get_id` (any database
  error returns 0) is not modelled, because the in-memory tables are always
  readable.
- `Store.RecordStore.Insert`: the table schema is not part of this model, so
  no key constraint can make an insert fail. A failed store write is not
  modelled.
- `App.ParseDate`: digits are ASCII only. Python's `\d` and `int()` also
  accept other Unicode decimal digits.
- `Monitor.LoadZone`: settings values are taken as integers. A JSON value of
  another type is not modelled.
- Processes, events and `join` are abstracted to an `alive` flag and an
  `isSet` flag. A worker that ends on its own is the environment step
  `Controller.WorkerExits`. The controller does not run `Monitor.Run` itself,
  because the two run concurrently.
- `App.Controller.Stop`: the handler is one atomic step. In the code,
  `delete()` (main.py:67) runs before `stop_event.set()` and `join()`
  (main.py:74-75), while the worker still runs. A capture the worker makes
  in that window inserts a row into `events_images` after the delete, so a
  real stop can leave that table non-empty. The model does not interleave the
  worker with the handler and does not show that outcome.
- `App.StopResets`: its "empty after stop" holds only for the atomic stop
  above. It does not cover a worker capture that lands between the delete and
  the join.
- `shared_counter` is only ever set to 1 or cleared; nothing reads it.
- The FastAPI routes, templates, static mounts and `uvicorn.run` are left
  out. So are the two SSE generators: infinite polling of
  `select_all('events_images')` every 5 seconds.
- `os.path.abspath` in `get_humans` is left out: replies carry the stored
  relative paths. The text of pydantic's error detail is reduced to the
  error kind.
- The `main()` launcher and `EmergencyStopException` in `opencv.py` are left
  out.
- `Monitor.Monitor.Run`: a raise from `cv2.imwrite` is modelled only as the
  worker stopping. The traceback it prints is not modelled.
