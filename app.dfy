/**
 * The request-facing logic of `main.py`: the date validator behind
 * `/humans/{date}`, the choice of the `/humans/{date}` reply, and the
 * `/start` and `/stop` state machine over the single monitoring worker.
 */
module App {
  import opened Wrappers
  import opened Store
  import opened Decimal

  // ----- `ValidateDate.validate_date` -----

  datatype CalendarDate = CalendarDate(year: int, month: int, day: int)

  /** A `%m` field: `1[0-2]`, `0[1-9]` or `[1-9]`. */
  predicate MonthField(m: string)
  {
    (|m| == 2 && ((m[0] == '1' && '0' <= m[1] <= '2') || (m[0] == '0' && '1' <= m[1] <= '9'))) ||
    (|m| == 1 && '1' <= m[0] <= '9')
  }

  /** A `%d` field: `3[01]`, `[12]` and a digit, `0[1-9]`, `[1-9]`, or a space and `[1-9]`. */
  predicate DayField(d: string)
  {
    (|d| == 2 && ((d[0] == '3' && '0' <= d[1] <= '1') || ('1' <= d[0] <= '2' && IsDigit(d[1])) ||
                  (d[0] == '0' && '1' <= d[1] <= '9') || (d[0] == ' ' && '1' <= d[1] <= '9'))) ||
    (|d| == 1 && '1' <= d[0] <= '9')
  }

  /** Value of a month or day field; a leading space is padding. */
  function FieldValue(f: string): int
    requires MonthField(f) || DayField(f)
  {
    if f[0] == ' ' then Number(f[1..]) else Number(f)
  }

  predicate IsLeapYear(y: int)
  {
    y % 4 == 0 && (y % 100 != 0 || y % 400 == 0)
  }

  function DaysInMonth(y: int, m: int): int
    requires 1 <= m <= 12
  {
    if m == 2 then (if IsLeapYear(y) then 29 else 28)
    else if m == 4 || m == 6 || m == 9 || m == 11 then 30
    else 31
  }

  /** A date the proleptic Gregorian calendar has, from year 1 on. */
  predicate IsRealDate(d: CalendarDate)
  {
    1 <= d.year && 1 <= d.month <= 12 && 1 <= d.day <= DaysInMonth(d.year, d.month)
  }

  /**
   * `s` is four digits, `-`, a month field of `k` characters, `-` and a
   * day field up to the end, and these fields read as `d`.
   */
  predicate Layout(s: string, k: int, d: CalendarDate)
  {
    1 <= k <= 2 && 5 + k < |s| && AllDigits(s[..4]) && s[4] == '-' &&
    MonthField(s[5..5 + k]) && s[5 + k] == '-' && DayField(s[6 + k..]) &&
    d == CalendarDate(Number(s[..4]), FieldValue(s[5..5 + k]), FieldValue(s[6 + k..]))
  }

  /**
   * `strptime(s, '%Y-%m-%d')`: four digits, `-`, a month field, `-`, a day
   * field and nothing after it, naming a real date; `None` where it raises.
   */
  function ParseDate(s: string): (r: Option<CalendarDate>)
    ensures r.Some? ==> IsRealDate(r.value)
    ensures r.Some? ==> |s| >= 8 && AllDigits(s[..4]) && s[4] == '-' && r.value.year == Number(s[..4])
    ensures r.Some? ==> Layout(s, 1, r.value) || Layout(s, 2, r.value)
    ensures r.None? ==> forall d :: (Layout(s, 1, d) || Layout(s, 2, d)) ==> !IsRealDate(d)
  {
    if |s| < 5 || !AllDigits(s[..4]) || s[4] != '-' then None
    else
      var rest := s[5..];
      var monthLength := if |rest| >= 3 && rest[2] == '-' then 2 else 1;
      if |rest| <= monthLength || rest[monthLength] != '-' || !MonthField(rest[..monthLength]) then None
      else
        var dayField := rest[monthLength + 1..];
        if !DayField(dayField) then None
        else
          assert rest[..monthLength] == s[5..5 + monthLength] && dayField == s[6 + monthLength..];
          var d := CalendarDate(Number(s[..4]), FieldValue(rest[..monthLength]), FieldValue(dayField));
          if IsRealDate(d) then Some(d) else None
  }

  datatype DateError = BadFormat | YearOutOfRange

  /**
   * The validator: rejects what `strptime` rejects, then a year outside
   * 1970..2025; an accepted date is returned exactly as given.
   */
  function ValidateDate(s: string): (r: Result<string, DateError>)
    ensures r.Success? ==> r.value == s
    ensures r.Success? <==> ParseDate(s).Some? && 1970 <= ParseDate(s).value.year <= 2025
    ensures r == Failure(BadFormat) <==> ParseDate(s).None?
  {
    match ParseDate(s)
    case None => Failure(BadFormat)
    case Some(d) => if 1970 <= d.year <= 2025 then Success(s) else Failure(YearOutOfRange)
  }

  /** Two zero-padded digits. */
  function Pad2(n: int): string
    requires 0 <= n < 100
  {
    [DigitChar(n / 10), DigitChar(n % 10)]
  }

  /** The `YYYY-MM-DD` rendering of a date, as `str(date)` writes it. */
  function Iso(d: CalendarDate): string
    requires 0 <= d.year < 10000 && 0 <= d.month < 100 && 0 <= d.day < 100
  {
    Pad2(d.year / 100) + Pad2(d.year % 100) + "-" + Pad2(d.month) + "-" + Pad2(d.day)
  }

  lemma Pad2Value(n: int)
    requires 0 <= n < 100
    ensures AllDigits(Pad2(n)) && Number(Pad2(n)) == n
  {
    var p := Pad2(n);
    assert p[..1][..0] == [];
    assert Number(p) == Number(p[..1]) * 10 + DigitValue(p[1]);
  }

  lemma Pad4Value(n: int)
    requires 0 <= n < 10000
    ensures AllDigits(Pad2(n / 100) + Pad2(n % 100))
    ensures Number(Pad2(n / 100) + Pad2(n % 100)) == n
  {
    var hi, lo := Pad2(n / 100), Pad2(n % 100);
    Pad2Value(n / 100);
    Pad2Value(n % 100);
    var s := hi + lo;
    assert s[..3][..2] == hi;
    assert s[..3] == hi + [lo[0]];
    assert s[..3][..2] == s[..2];
    assert Number(s[..3]) == Number(hi) * 10 + DigitValue(lo[0]);
    assert Number(s) == Number(s[..3]) * 10 + DigitValue(lo[1]);
    assert lo[..1][..0] == [];
    assert Number(lo) == DigitValue(lo[0]) * 10 + DigitValue(lo[1]);
  }

  /**
   * A date written as `YYYY-MM-DD` parses back to itself when it is a
   * real date, and is rejected otherwise (month 00 or 13, day 00 or past
   * the month's end, year 0000).
   */
  lemma ParseIso(d: CalendarDate)
    requires 0 <= d.year < 10000 && 0 <= d.month < 100 && 0 <= d.day < 100
    ensures ParseDate(Iso(d)) == if IsRealDate(d) then Some(d) else None
  {
    var s := Iso(d);
    Pad4Value(d.year);
    Pad2Value(d.month);
    Pad2Value(d.day);
    assert s[..4] == Pad2(d.year / 100) + Pad2(d.year % 100);
    var rest := s[5..];
    assert rest == Pad2(d.month) + "-" + Pad2(d.day);
    assert rest[..2] == Pad2(d.month);
    assert rest[3..] == Pad2(d.day);
  }

  /**
   * On a date written as `YYYY-MM-DD`, the validator reports a bad format
   * exactly when the date is not real, and otherwise accepts it exactly
   * when its year is 1970..2025.
   */
  lemma ValidateIso(d: CalendarDate)
    requires 0 <= d.year < 10000 && 0 <= d.month < 100 && 0 <= d.day < 100
    ensures ValidateDate(Iso(d)) ==
      if !IsRealDate(d) then Failure(BadFormat)
      else if 1970 <= d.year <= 2025 then Success(Iso(d))
      else Failure(YearOutOfRange)
  {
    ParseIso(d);
  }

  /** The validator on the documented well-formed inputs: one year in range, one before 1970. */
  lemma ValidateExamples()
    ensures ValidateDate("2025-01-01") == Success("2025-01-01")
    ensures ValidateDate("1969-12-31") == Failure(YearOutOfRange)
  {
    IsoExamples();
    ValidateIso(CalendarDate(2025, 1, 1));
    ValidateIso(CalendarDate(1969, 12, 31));
  }

  /** The validator on the documented malformed inputs: month 13, February 30th, and no date at all. */
  lemma ValidateBadFormatExamples()
    ensures ValidateDate("2025-13-01") == Failure(BadFormat)
    ensures ValidateDate("2025-02-30") == Failure(BadFormat)
    ensures ValidateDate("not-a-date") == Failure(BadFormat)
  {
    IsoExamples();
    ValidateIso(CalendarDate(2025, 2, 30));
  }

  lemma IsoExamples()
    ensures Iso(CalendarDate(2025, 1, 1)) == "2025-01-01"
    ensures Iso(CalendarDate(1969, 12, 31)) == "1969-12-31"
    ensures Iso(CalendarDate(2025, 2, 30)) == "2025-02-30"
  {
  }

  // ----- the `/humans/{date}` reply -----

  const NotFoundMessage: string := "Скриншотов на данную дату не найдено"

  datatype Reply = Found(paths: seq<string>) | NotFound(message: string) | HttpError(status: int, detail: DateError)

  /**
   * `get_humans`: a date the validator rejects becomes status 400;
   * otherwise the stored paths for that date, or the fixed message when
   * there are none.
   */
  function GetHumans(date: string, templates: seq<Row>): (r: Reply)
    ensures r.HttpError? <==> ValidateDate(date).Failure?
    ensures r.HttpError? ==> r.status == 400 && r.detail == ValidateDate(date).error
    ensures r.Found? ==> r.paths == Select(templates, date) && r.paths != []
    ensures r.NotFound? ==> r.message == NotFoundMessage && Select(templates, date) == []
  {
    match ValidateDate(date)
    case Failure(e) => HttpError(400, e)
    case Success(d) =>
      var result := Select(templates, d);
      if result != [] then Found(result) else NotFound(NotFoundMessage)
  }

  /**
   * For a valid date, the reply lists paths exactly when some capture row
   * carries that date, and then one path per such row.
   */
  lemma GetHumansFound(date: string, templates: seq<Row>)
    requires ValidateDate(date).Success?
    ensures GetHumans(date, templates).Found? <==> exists i :: 0 <= i < |templates| && templates[i].date == date
    ensures GetHumans(date, templates).NotFound? <==> forall i :: 0 <= i < |templates| ==> templates[i].date != date
  {
    SelectEmpty(templates, date);
  }

  // ----- `/start` and `/stop` -----

  /** The worker process: only whether it is alive matters here. */
  datatype Process = Process(alive: bool)

  /** The stop event the worker polls. */
  datatype Event = Event(isSet: bool)

  /** The `message` of each `/start` and `/stop` reply. */
  const AlreadyRunningMessage: string := "Обработка видео уже запущена"
  const StartedMessage: string := "Обработка видео запущена"
  const NotRunningMessage: string := "Обработка видео не запущена"
  const StoppedMessage: string := "Обработка видео остановлена"

  /**
   * The module globals `video_process`, `stop_event` and
   * `shared_counter`, and the store the stop handler clears. `retired`
   * records each handle as it was when dropped.
   */
  class Controller {
    var videoProcess: Option<Process>
    var stopEvent: Option<Event>
    var sharedCounter: Option<int>
    ghost var retired: seq<(Process, Event)>
    const store: RecordStore

    /** The three globals are set together, and every dropped worker is dead: at most one worker lives. */
    ghost predicate Valid()
      reads this
    {
      (videoProcess.Some? <==> stopEvent.Some?) &&
      (videoProcess.Some? <==> sharedCounter.Some?) &&
      forall i :: 0 <= i < |retired| ==> !retired[i].0.alive
    }

    constructor (store: RecordStore)
      ensures Valid() && this.store == store
      ensures videoProcess.None? && stopEvent.None? && sharedCounter.None? && retired == []
    {
      this.store := store;
      videoProcess := None;
      stopEvent := None;
      sharedCounter := None;
      retired := [];
    }

    predicate Running()
      reads this
    {
      videoProcess.Some? && videoProcess.value.alive
    }

    /**
     * `start_camera`: a no-op while the worker is alive; otherwise a fresh
     * handle with a clear stop event replaces whatever was there.
     */
    method Start() returns (message: string)
      requires Valid()
      modifies this
      ensures Valid()
      ensures old(Running()) ==> message == AlreadyRunningMessage && unchanged(this)
      ensures !old(Running()) ==>
                message == StartedMessage &&
                videoProcess == Some(Process(true)) && stopEvent == Some(Event(false)) && sharedCounter == Some(1) &&
                retired == old(retired) + (if old(videoProcess).Some? then [(old(videoProcess).value, old(stopEvent).value)] else [])
    {
      if videoProcess.Some? && videoProcess.value.alive {
        return AlreadyRunningMessage;
      }
      if videoProcess.Some? {
        retired := retired + [(videoProcess.value, stopEvent.value)];
      }
      sharedCounter := Some(1);
      stopEvent := Some(Event(false));
      videoProcess := Some(Process(true));
      message := StartedMessage;
    }

    /**
     * `stop_camera`: always clears `events_images` first; with no handle
     * reports "not running"; otherwise stops a live worker (sets its event,
     * waits for it to end) and drops the handle.
     */
    method Stop() returns (message: string)
      requires Valid()
      modifies this, store
      ensures Valid()
      ensures store.events == [] && store.templates == old(store.templates)
      ensures videoProcess.None? && stopEvent.None? && sharedCounter.None?
      ensures message == if old(videoProcess).None? then NotRunningMessage else StoppedMessage
      ensures old(videoProcess).None? ==> retired == old(retired)
      ensures old(Running()) ==> retired == old(retired) + [(Process(false), Event(true))]
      ensures old(videoProcess).Some? && !old(Running()) ==>
        retired == old(retired) + [(old(videoProcess).value, old(stopEvent).value)]
    {
      store.Delete();
      if videoProcess.None? {
        return NotRunningMessage;
      }
      if videoProcess.value.alive {
        stopEvent := Some(Event(true));
        videoProcess := Some(Process(false));
      }
      retired := retired + [(videoProcess.value, stopEvent.value)];
      videoProcess := None;
      stopEvent := None;
      sharedCounter := None;
      message := StoppedMessage;
    }

    /** The worker's loop ends on its own (stream exhausted or stop seen). */
    method WorkerExits()
      requires Valid()
      modifies this
      ensures Valid()
      ensures videoProcess == if old(videoProcess).Some? then Some(Process(false)) else None
      ensures stopEvent == old(stopEvent) && sharedCounter == old(sharedCounter) && retired == old(retired)
    {
      if videoProcess.Some? {
        videoProcess := Some(Process(false));
      }
    }
  }

  /** Two starts in a row: the second reports "already running" and one worker lives. */
  method StartTwice(c: Controller) returns (first: string, second: string)
    requires c.Valid()
    modifies c
    ensures c.Valid() && c.Running() && second == AlreadyRunningMessage
    ensures forall i :: 0 <= i < |c.retired| ==> !c.retired[i].0.alive
  {
    first := c.Start();
    second := c.Start();
  }

  /** A stop, whether or not a worker ran, leaves the notification mirror empty and no handle. */
  method StopResets(c: Controller) returns (message: string)
    requires c.Valid()
    modifies c, c.store
    ensures SelectAll(c.store.events) == [] && !c.Running()
  {
    message := c.Stop();
  }
}
