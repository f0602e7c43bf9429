/**
  The auction creation form (`CreateForm`): the schema its resolver checks,
  the combination of the picked date with the typed `HH:MM` start time, the
  initial lifecycle state, and the submit sequence: upload the image, insert
  the row only if the upload succeeded, redirect only if the insert succeeded.
 */
module CreateForm {
  import opened Wrappers
  import opened Text
  import opened Auctions

  // ------------------------------------------------------------------ schema

  /** The start-time pattern `^([01]\d|2[0-3]):([0-5]\d)$`, `\d` being an ASCII digit. */
  predicate StartTimeMatches(t: string): (ok: bool)
    ensures ok ==> |t| == 5 && t[2] == ':' && AllDigits(t[..2]) && AllDigits(t[3..])
  {
    && |t| == 5
    && (((t[0] == '0' || t[0] == '1') && IsDigit(t[1])) || (t[0] == '2' && '0' <= t[1] <= '3'))
    && t[2] == ':'
    && '0' <= t[3] <= '5'
    && IsDigit(t[4])
  }

  datatype ImageFile = ImageFile(name: string, contentType: string)

  /**
    The form's fields as the resolver receives them. `price` and `duration`
    are what `Number` makes of the field, `None` when that is NaN (as for a
    field never filled in, whose value is `undefined`); `startDate` is the
    picked day as a local-time instant, `None` when no valid date is picked.
    The image field accepts anything, including no file at all.
   */
  datatype FormInput = FormInput(
    name: string,
    description: string,
    price: Option<int>,
    startDate: Option<int>,
    startTime: string,
    duration: Option<int>,
    image: Option<ImageFile>)

  /** The values `onSubmit` receives once the schema has accepted the input. */
  datatype FormValues = FormValues(
    name: string,
    description: string,
    price: int,
    startDate: int,
    startTime: string,
    duration: int,
    image: Option<ImageFile>)

  /**
    `formSchema`: name and description of at least two UTF-16 code units, a
    number for price and duration, a valid date and a start time matching the
    pattern. Two characters always suffice; one suffices when it lies above
    the Basic Multilingual Plane.
   */
  predicate SchemaAccepts(input: FormInput): (ok: bool)
    ensures ok ==> |input.name| >= 1 && |input.description| >= 1
    ensures ok ==> input.price.Some? && input.duration.Some? && input.startDate.Some?
    ensures ok ==> StartTimeMatches(input.startTime)
    ensures (&& |input.name| >= 2 && |input.description| >= 2
             && input.price.Some? && input.duration.Some? && input.startDate.Some?
             && StartTimeMatches(input.startTime)) ==> ok
  {
    && Utf16Length(input.name) >= 2
    && Utf16Length(input.description) >= 2
    && input.price.Some?
    && input.startDate.Some?
    && StartTimeMatches(input.startTime)
    && input.duration.Some?
  }

  /** The schema's output for an accepted input. */
  function SchemaOutput(input: FormInput): FormValues
    requires SchemaAccepts(input)
  {
    FormValues(input.name, input.description, input.price.value, input.startDate.value,
               input.startTime, input.duration.value, input.image)
  }

  // --------------------------------------------------------- start-time text

  /** A number rendered with at least two digits, as a time picker writes hours and minutes. */
  function TwoDigits(n: nat): string {
    PadStart(NatToString(n), 2, '0')
  }

  lemma TwoDigitsOf(n: nat)
    requires n < 100
    ensures TwoDigits(n) == [DigitChar(n / 10), DigitChar(n % 10)]
  {
    if n >= 10 {
      assert NatToString(n / 10) == [DigitChar(n / 10)];
    }
  }

  lemma ParseTwoDigits(s: string)
    requires |s| == 2 && AllDigits(s)
    ensures ParseDigits(s) == 10 * DigitValue(s[0]) + DigitValue(s[1])
  {
    var p := s[..1];
    assert p[..0] == [] && p[0] == s[0];
    assert ParseDigits(p) == DigitValue(s[0]);
    assert s[..|s| - 1] == p;
  }

  /** Two digit characters are the two-digit rendering of the number they spell. */
  lemma TwoDigitsOfDigits(c0: char, c1: char, n: nat)
    requires IsDigit(c0) && IsDigit(c1)
    requires n == 10 * DigitValue(c0) + DigitValue(c1)
    ensures TwoDigits(n) == [c0, c1]
  {
    DivTen(n, DigitValue(c0), DigitValue(c1));
    TwoDigitsOf(n);
    DigitCharValue(c0);
    DigitCharValue(c1);
    var r := TwoDigits(n);
    assert r[0] == c0 && r[1] == c1;
  }

  lemma DivTen(n: int, a: int, b: int)
    requires n == 10 * a + b && 0 <= b < 10
    ensures n / 10 == a && n % 10 == b
  {
  }

  lemma DigitCharValue(c: char)
    requires IsDigit(c)
    ensures DigitChar(DigitValue(c)) == c
  {
  }

  /**
    `startTime.split(":").map(Number)` on an accepted start time: an hour of
    the day and a minute of the hour.
   */
  function ParseStartTime(t: string): (hm: (int, int))
    requires StartTimeMatches(t)
    ensures 0 <= hm.0 < 24 && 0 <= hm.1 < 60
    ensures hm.0 == 10 * DigitValue(t[0]) + DigitValue(t[1])
    ensures hm.1 == 10 * DigitValue(t[3]) + DigitValue(t[4])
  {
    assert t == t[..2] + [':'] + t[3..];
    SplitPair(t[..2], t[3..], ':');
    ParseTwoDigits(t[..2]);
    ParseTwoDigits(t[3..]);
    var parts := Split(t, ':');
    (ParseDigits(parts[0]), ParseDigits(parts[1]))
  }

  /** Re-rendering the parsed hour and minute with two digits each gives back the accepted text. */
  lemma StartTimeRoundTrip(t: string)
    requires StartTimeMatches(t)
    ensures TwoDigits(ParseStartTime(t).0) + ":" + TwoDigits(ParseStartTime(t).1) == t
  {
    var hm := ParseStartTime(t);
    HourField(t);
    MinuteField(t);
    FieldsJoin(t, TwoDigits(hm.0), TwoDigits(hm.1));
  }

  lemma HourField(t: string)
    requires StartTimeMatches(t)
    ensures TwoDigits(ParseStartTime(t).0) == [t[0], t[1]]
  {
    TwoDigitsOfDigits(t[0], t[1], ParseStartTime(t).0);
  }

  lemma MinuteField(t: string)
    requires StartTimeMatches(t)
    ensures TwoDigits(ParseStartTime(t).1) == [t[3], t[4]]
  {
    TwoDigitsOfDigits(t[3], t[4], ParseStartTime(t).1);
  }

  lemma FieldsJoin(t: string, a: string, b: string)
    requires StartTimeMatches(t)
    requires a == [t[0], t[1]] && b == [t[3], t[4]]
    ensures t == a + ":" + b
  {
  }

  /** Every hour and minute, written with two digits each, is accepted and parses back to itself. */
  lemma ClockAccepted(h: nat, m: nat)
    requires h < 24 && m < 60
    ensures StartTimeMatches(TwoDigits(h) + ":" + TwoDigits(m))
    ensures ParseStartTime(TwoDigits(h) + ":" + TwoDigits(m)) == (h, m)
  {
    var t := TwoDigits(h) + ":" + TwoDigits(m);
    ClockChars(h, m);
    ClockMatches(t, h, m);
    ClockParses(t, h, m);
  }

  lemma ClockChars(h: nat, m: nat)
    requires h < 24 && m < 60
    ensures var t := TwoDigits(h) + ":" + TwoDigits(m);
      && |t| == 5 && t[2] == ':'
      && t[0] == DigitChar(h / 10) && t[1] == DigitChar(h % 10)
      && t[3] == DigitChar(m / 10) && t[4] == DigitChar(m % 10)
  {
    TwoDigitsOf(h);
    TwoDigitsOf(m);
    JoinedChars(TwoDigits(h), TwoDigits(m));
  }

  lemma JoinedChars(a: string, b: string)
    requires |a| == 2 && |b| == 2
    ensures var t := a + ":" + b;
      |t| == 5 && t[0] == a[0] && t[1] == a[1] && t[2] == ':' && t[3] == b[0] && t[4] == b[1]
  {
  }

  lemma ClockMatches(t: string, h: nat, m: nat)
    requires h < 24 && m < 60
    requires |t| == 5 && t[2] == ':'
    requires t[0] == DigitChar(h / 10) && t[1] == DigitChar(h % 10)
    requires t[3] == DigitChar(m / 10) && t[4] == DigitChar(m % 10)
    ensures StartTimeMatches(t)
  {
    assert h / 10 <= 2 && (h / 10 == 2 ==> h % 10 <= 3) && m / 10 <= 5;
  }

  lemma ClockParses(t: string, h: nat, m: nat)
    requires h < 24 && m < 60
    requires StartTimeMatches(t)
    requires t[0] == DigitChar(h / 10) && t[1] == DigitChar(h % 10)
    requires t[3] == DigitChar(m / 10) && t[4] == DigitChar(m % 10)
    ensures ParseStartTime(t) == (h, m)
  {
    var hm := ParseStartTime(t);
    assert hm.0 == 10 * (h / 10) + h % 10;
    assert hm.1 == 10 * (m / 10) + m % 10;
  }

  // -------------------------------------------------------------- local time

  const MsPerHour: int := 3600000
  const MsPerDay: int := 86400000

  /** The calendar day of a local-time instant. */
  function Day(t: int): int {
    t / MsPerDay
  }

  function HoursOf(t: int): int {
    (t % MsPerDay) / MsPerHour
  }

  function MinutesOf(t: int): int {
    (t % MsPerHour) / MsPerMinute
  }

  /** `setHours(h)`: the instant moved by the difference in hours; an hour of the day keeps the day and the rest. */
  function WithHours(t: int, h: int): (r: int)
    ensures r == t + (h - HoursOf(t)) * MsPerHour
    ensures 0 <= h < 24 ==> Day(r) == Day(t) && HoursOf(r) == h && r % MsPerHour == t % MsPerHour
  {
    Day(t) * MsPerDay + h * MsPerHour + t % MsPerHour
  }

  /** `setMinutes(m)`: the instant moved by the difference in minutes; a minute of the hour keeps the hour and the rest. */
  function WithMinutes(t: int, m: int): (r: int)
    ensures r == t + (m - MinutesOf(t)) * MsPerMinute
    ensures 0 <= m < 60 ==>
              r / MsPerHour == t / MsPerHour && MinutesOf(r) == m && r % MsPerMinute == t % MsPerMinute
  {
    (t / MsPerHour) * MsPerHour + m * MsPerMinute + t % MsPerMinute
  }

  /** A JavaScript `Date`, reduced to its local-time value. */
  class JsDate {
    var time: int

    /** `new Date(other)`: a copy. */
    constructor (t: int)
      ensures time == t
    {
      time := t;
    }

    method SetHours(h: int)
      modifies this
      ensures time == WithHours(old(time), h)
    {
      time := WithHours(time, h);
    }

    method SetMinutes(m: int)
      modifies this
      ensures time == WithMinutes(old(time), m)
    {
      time := WithMinutes(time, m);
    }
  }

  /**
    The start instant: the picked date with its hour and then its minute
    replaced. Whatever the hour and minute, even out of range, the seconds
    and milliseconds of the picked date are kept.
   */
  function CombineStart(date: int, hm: (int, int)): (start: int)
    ensures start % MsPerMinute == date % MsPerMinute
  {
    var t := WithHours(date, hm.0);
    HourSplit(date);
    DivMinute(t, Day(date) * 1440 + hm.0 * 60 + (date % MsPerHour) / MsPerMinute, date % MsPerMinute);
    HourSplit(t);
    DivMinute(WithMinutes(t, hm.1), (t / MsPerHour) * 60 + hm.1, t % MsPerMinute);
    WithMinutes(t, hm.1)
  }

  /**
    For an hour of the day and a minute of the hour, the start keeps the
    picked calendar day and its seconds and milliseconds, and carries exactly
    that hour and minute.
   */
  lemma CombineStartFields(date: int, h: int, m: int)
    requires 0 <= h < 24 && 0 <= m < 60
    ensures var s := CombineStart(date, (h, m));
      Day(s) == Day(date) && HoursOf(s) == h && MinutesOf(s) == m && s % MsPerMinute == date % MsPerMinute
  {
    var t1 := WithHours(date, h);
    var s := WithMinutes(t1, m);
    SameHourSameDay(s, t1);
    HourSplit(t1);
    HourSplit(date);
  }

  /** Two instants in the same hour are on the same day at the same hour of the day. */
  lemma SameHourSameDay(x: int, y: int)
    requires x / MsPerHour == y / MsPerHour
    ensures Day(x) == Day(y) && HoursOf(x) == HoursOf(y)
  {
    HourSplit(x);
    HourSplit(y);
  }

  /** Day and hour of the day read off the count of whole hours; minutes and below off the rest. */
  lemma HourSplit(x: int)
    ensures Day(x) == (x / MsPerHour) / 24
    ensures HoursOf(x) == (x / MsPerHour) % 24
    ensures (x % MsPerHour) % MsPerMinute == x % MsPerMinute
  {
    var q, r := x / MsPerHour, x % MsPerHour;
    var d, e := q / 24, q % 24;
    DivDay(x, d, e * MsPerHour + r);
    DivHour(x % MsPerDay, e, r);
    var u, v := r / MsPerMinute, r % MsPerMinute;
    DivMinute(x, q * 60 + u, v);
  }

  lemma DivDay(x: int, a: int, b: int)
    requires x == a * MsPerDay + b && 0 <= b < MsPerDay
    ensures x / MsPerDay == a && x % MsPerDay == b
  {
  }

  lemma DivHour(x: int, a: int, b: int)
    requires x == a * MsPerHour + b && 0 <= b < MsPerHour
    ensures x / MsPerHour == a && x % MsPerHour == b
  {
  }

  lemma DivMinute(x: int, a: int, b: int)
    requires x == a * MsPerMinute + b && 0 <= b < MsPerMinute
    ensures x / MsPerMinute == a && x % MsPerMinute == b
  {
  }

  // ---------------------------------------------------- lifecycle at creation

  /** `startDateTime > now ? "future" : "ongoing"`. */
  function InitialState(startMs: int, nowMs: int): (s: AuctionState)
    ensures s == Future <==> startMs > nowMs
    ensures s == Ongoing <==> startMs <= nowMs
    ensures s != Completed
  {
    if startMs > nowMs then Future else Ongoing
  }

  /** `/auctions/${state}`: the listing page of the new auction's state, one page per state. */
  function RedirectTarget(state: AuctionState): (path: string)
    ensures path == "/auctions/future" <==> state == Future
    ensures path == "/auctions/ongoing" <==> state == Ongoing
    ensures path == "/auctions/completed" <==> state == Completed
  {
    var p := "/auctions/" + state.Name();
    assert p[10] == state.Name()[0];
    p
  }

  /**
    `${Date.now()}-${file.name}`: the clock reading in decimal, '-', then the
    file's name.
   */
  function FilePath(clockMs: int, file: ImageFile): (path: string)
    ensures |path| > |file.name| + 1
    ensures path[|path| - |file.name| - 1..] == "-" + file.name
    ensures clockMs >= 0 ==> path[..|path| - |file.name| - 1] == NatToString(clockMs)
  {
    var p := IntToString(clockMs) + "-" + file.name;
    assert p[..|IntToString(clockMs)|] == IntToString(clockMs);
    p
  }

  /** Two uploads of a file under the same name at different (non-negative) clock readings use different paths. */
  lemma FilePathDistinct(clock1: nat, clock2: nat, file: ImageFile)
    requires clock1 != clock2
    ensures FilePath(clock1, file) != FilePath(clock2, file)
  {
    if FilePath(clock1, file) == FilePath(clock2, file) {
      var p := FilePath(clock1, file);
      assert NatToString(clock1) == p[..|p| - |file.name| - 1] == NatToString(clock2);
      ParseNatToString(clock1);
      ParseNatToString(clock2);
    }
  }

  // ----------------------------------------------------------------- storage

  /** The `auction-images` bucket. */
  class ImageBucket {
    var objects: map<string, ImageFile>

    constructor (initial: map<string, ImageFile>)
      ensures objects == initial
    {
      objects := initial;
    }

    /** Store `file` under `path` unless the store reports `fault`. */
    method Upload(path: string, file: ImageFile, fault: Option<string>) returns (error: Option<string>)
      modifies this
      ensures error == fault
      ensures fault.None? ==> objects == old(objects)[path := file]
      ensures fault.Some? ==> objects == old(objects)
    {
      error := fault;
      if fault.None? {
        objects := objects[path := file];
      }
    }
  }

  /** The `auction_item` table. */
  class AuctionTable {
    var rows: seq<NewAuction>

    constructor (initial: seq<NewAuction>)
      ensures rows == initial
    {
      rows := initial;
    }

    /** Append `row` unless the store reports `fault`. */
    method Insert(row: NewAuction, fault: Option<string>) returns (error: Option<string>)
      modifies this
      ensures error == fault
      ensures fault.None? ==> rows == old(rows) + [row]
      ensures fault.Some? ==> rows == old(rows)
    {
      error := fault;
      if fault.None? {
        rows := rows + [row];
      }
    }
  }

  // ------------------------------------------------------------------ submit

  /** How a submission ends; each but `NotSubmitted` raises one toast. */
  datatype SubmitOutcome = NotSubmitted | Crashed | UploadFailed | InsertFailed | Created(redirect: string)

  const SomethingWentWrong: string := "Something went wrong"
  const UploadFailedText: string := "Upload failed"
  const InsertFailedText: string := "Failed to create auction"
  const CreatedText: string := "Auction created successfully"

  /** The toast a submission raises; a plain success toast only for a created auction. */
  function Toast(o: SubmitOutcome): (msg: Option<string>)
    ensures msg.None? <==> o.NotSubmitted?
    ensures msg == Some(SomethingWentWrong) <==> o.Crashed?
    ensures msg == Some(UploadFailedText) <==> o.UploadFailed?
    ensures msg == Some(InsertFailedText) <==> o.InsertFailed?
    ensures msg == Some(CreatedText) <==> o.Created?
  {
    match o
    case NotSubmitted => None
    case Crashed => Some(SomethingWentWrong)
    case UploadFailed => Some(UploadFailedText)
    case InsertFailed => Some(InsertFailedText)
    case Created(_) => Some(CreatedText)
  }

  /** The row `onSubmit` inserts for `values` with image `file`. */
  function SubmittedRow(values: FormValues, sellerId: string, pathClockMs: int, nowMs: int, file: ImageFile): NewAuction
    requires StartTimeMatches(values.startTime)
  {
    var start := CombineStart(values.startDate, ParseStartTime(values.startTime));
    NewAuction(sellerId, values.name, values.description, values.price, start, values.duration,
               InitialState(start, nowMs), FilePath(pathClockMs, file))
  }

  /**
    What one run of `onSubmit` does, from bucket contents `objects0` and table
    rows `rows0` to `objects1` and `rows1`:
    no image: it throws before any write; a failed upload: no row and no
    redirect; after a successful upload the file is stored under its path, and
    then either the insert fails (no row, no redirect) or exactly the
    submitted row is appended and the browser goes to its state's page.
   */
  predicate SubmitEffect(values: FormValues, sellerId: string, pathClockMs: int, nowMs: int,
                         uploadFault: Option<string>, insertFault: Option<string>,
                         objects0: map<string, ImageFile>, rows0: seq<NewAuction>,
                         objects1: map<string, ImageFile>, rows1: seq<NewAuction>,
                         outcome: SubmitOutcome)
    requires StartTimeMatches(values.startTime)
  {
    match values.image
    case None => outcome == Crashed && objects1 == objects0 && rows1 == rows0
    case Some(file) =>
      if uploadFault.Some? then
        outcome == UploadFailed && objects1 == objects0 && rows1 == rows0
      else
        && objects1 == objects0[FilePath(pathClockMs, file) := file]
        && if insertFault.Some? then
             outcome == InsertFailed && rows1 == rows0
           else
             var row := SubmittedRow(values, sellerId, pathClockMs, nowMs, file);
             rows1 == rows0 + [row] && outcome == Created(RedirectTarget(row.state))
  }

  /**
    Every run of `onSubmit` raises exactly one toast, and it adds a row (then
    exactly one) precisely when it creates the auction; otherwise the table is
    untouched.
   */
  lemma SubmitEffectRows(values: FormValues, sellerId: string, pathClockMs: int, nowMs: int,
                         uploadFault: Option<string>, insertFault: Option<string>,
                         objects0: map<string, ImageFile>, rows0: seq<NewAuction>,
                         objects1: map<string, ImageFile>, rows1: seq<NewAuction>,
                         outcome: SubmitOutcome)
    requires StartTimeMatches(values.startTime)
    requires SubmitEffect(values, sellerId, pathClockMs, nowMs, uploadFault, insertFault,
                          objects0, rows0, objects1, rows1, outcome)
    ensures Toast(outcome).Some?
    ensures outcome.Created? <==> |rows1| == |rows0| + 1
    ensures !outcome.Created? ==> rows1 == rows0
    ensures outcome.Created? ==> rows1[..|rows0|] == rows0 && rows1[|rows0|].sellerId == sellerId
    ensures objects1 != objects0 ==> values.image.Some? && uploadFault.None?
  {
  }

  /**
    `onSubmit`. `pathClockMs` is the `Date.now()` read for the file path,
    `nowMs` the later `new Date()` the state is decided against; a missing
    image throws at `file.name` before anything is written.
   */
  method OnSubmit(values: FormValues, sellerId: string, pathClockMs: int, nowMs: int,
                  bucket: ImageBucket, table: AuctionTable,
                  uploadFault: Option<string>, insertFault: Option<string>)
      returns (outcome: SubmitOutcome)
    requires StartTimeMatches(values.startTime)
    modifies bucket, table
    ensures SubmitEffect(values, sellerId, pathClockMs, nowMs, uploadFault, insertFault,
                         old(bucket.objects), old(table.rows), bucket.objects, table.rows, outcome)
  {
    if values.image.None? {
      return Crashed;
    }
    var file := values.image.value;
    var filePath := FilePath(pathClockMs, file);

    var hm := ParseStartTime(values.startTime);
    var startDateTime := new JsDate(values.startDate);
    startDateTime.SetHours(hm.0);
    startDateTime.SetMinutes(hm.1);

    var state := if startDateTime.time > nowMs then Future else Ongoing;

    var uploadError := bucket.Upload(filePath, file, uploadFault);
    if uploadError.Some? {
      return UploadFailed;
    }

    var row := NewAuction(sellerId, values.name, values.description, values.price,
                          startDateTime.time, values.duration, state, filePath);
    var insertError := table.Insert(row, insertFault);
    if insertError.Some? {
      outcome := InsertFailed;
    } else {
      outcome := Created(RedirectTarget(state));
    }
  }

  /**
    `form.handleSubmit(onSubmit)`: input the schema rejects never reaches
    `onSubmit` and changes nothing; accepted input goes to `onSubmit` as the
    schema's output.
   */
  method HandleSubmit(input: FormInput, sellerId: string, pathClockMs: int, nowMs: int,
                      bucket: ImageBucket, table: AuctionTable,
                      uploadFault: Option<string>, insertFault: Option<string>)
      returns (outcome: SubmitOutcome)
    modifies bucket, table
    ensures !SchemaAccepts(input) ==>
              outcome == NotSubmitted && bucket.objects == old(bucket.objects) && table.rows == old(table.rows)
    ensures SchemaAccepts(input) ==>
              SubmitEffect(SchemaOutput(input), sellerId, pathClockMs, nowMs, uploadFault, insertFault,
                           old(bucket.objects), old(table.rows), bucket.objects, table.rows, outcome)
    ensures |table.rows| > |old(table.rows)| ==> SchemaAccepts(input) && outcome.Created?
  {
    if !SchemaAccepts(input) {
      return NotSubmitted;
    }
    var values := SchemaOutput(input);
    outcome := OnSubmit(values, sellerId, pathClockMs, nowMs, bucket, table, uploadFault, insertFault);
    SubmitEffectRows(values, sellerId, pathClockMs, nowMs, uploadFault, insertFault,
                     old(bucket.objects), old(table.rows), bucket.objects, table.rows, outcome);
  }
}
