/**
 The fleet list's keyset paging: the opaque cursor's text and the page query
 (apps/api/src/brandwell-management.ts). Ids are over printable ASCII.
 */
module WorkspaceCursor {
  import opened Options
  import opened Wire
  import opened Base64Url

  const MAX_CURSOR_LENGTH := 500
  const MAX_ID_LENGTH := 200

  // ----- instants and their ISO text

  /** A UTC instant to the millisecond, in the years whose ISO text has four digits. */
  datatype Instant = Instant(year: nat, month: nat, day: nat, hour: nat, minute: nat, second: nat, milli: nat)

  function DaysIn(year: nat, month: nat): nat {
    if month == 2 then (if year % 4 == 0 && (year % 100 != 0 || year % 400 == 0) then 29 else 28)
    else if month == 4 || month == 6 || month == 9 || month == 11 then 30
    else 31
  }

  predicate IsInstant(t: Instant) {
    && t.year < 10000
    && 1 <= t.month <= 12
    && 1 <= t.day <= DaysIn(t.year, t.month)
    && t.hour < 24 && t.minute < 60 && t.second < 60 && t.milli < 1000
  }

  function DigitChar(n: nat): char {
    ('0' as int + n % 10) as char
  }

  /** `toISOString` */
  function IsoText(t: Instant): string {
    [DigitChar(t.year / 1000), DigitChar(t.year / 100), DigitChar(t.year / 10), DigitChar(t.year), '-',
     DigitChar(t.month / 10), DigitChar(t.month), '-',
     DigitChar(t.day / 10), DigitChar(t.day), 'T',
     DigitChar(t.hour / 10), DigitChar(t.hour), ':',
     DigitChar(t.minute / 10), DigitChar(t.minute), ':',
     DigitChar(t.second / 10), DigitChar(t.second), '.',
     DigitChar(t.milli / 100), DigitChar(t.milli / 10), DigitChar(t.milli), 'Z']
  }

  function DigitValue(c: char): nat {
    if '0' <= c <= '9' then c as int - '0' as int else 0
  }

  function ReadTwo(a: char, b: char): nat {
    DigitValue(a) * 10 + DigitValue(b)
  }

  function ReadThree(a: char, b: char, c: char): nat {
    ReadTwo(a, b) * 10 + DigitValue(c)
  }

  function ReadFour(a: char, b: char, c: char, d: char): nat {
    ReadThree(a, b, c) * 10 + DigitValue(d)
  }

  function ReadInstant(s: string): Instant
    requires |s| == 24
  {
    Instant(ReadFour(s[0], s[1], s[2], s[3]), ReadTwo(s[5], s[6]), ReadTwo(s[8], s[9]),
            ReadTwo(s[11], s[12]), ReadTwo(s[14], s[15]), ReadTwo(s[17], s[18]), ReadThree(s[20], s[21], s[22]))
  }

  /** The instant whose ISO text is exactly `s`, if there is one. */
  function ParseIso(s: string): Option<Instant> {
    if |s| == 24 && IsInstant(ReadInstant(s)) && IsoText(ReadInstant(s)) == s
    then Some(ReadInstant(s)) else None
  }

  lemma TwoDigits(n: nat)
    requires n < 100
    ensures ReadTwo(DigitChar(n / 10), DigitChar(n)) == n
  {
  }

  lemma ThreeDigits(n: nat)
    requires n < 1000
    ensures ReadThree(DigitChar(n / 100), DigitChar(n / 10), DigitChar(n)) == n
  {
    TwoDigits(n / 10);
    assert n / 10 / 10 == n / 100;
  }

  lemma FourDigits(n: nat)
    requires n < 10000
    ensures ReadFour(DigitChar(n / 1000), DigitChar(n / 100), DigitChar(n / 10), DigitChar(n)) == n
  {
    ThreeDigits(n / 10);
    assert n / 10 / 10 == n / 100 && n / 10 / 100 == n / 1000;
  }

  lemma ReadBack(t: Instant)
    requires IsInstant(t)
    ensures ReadInstant(IsoText(t)) == t
  {
    FourDigits(t.year);
    TwoDigits(t.month);
    TwoDigits(t.day);
    TwoDigits(t.hour);
    TwoDigits(t.minute);
    TwoDigits(t.second);
    ThreeDigits(t.milli);
  }

  lemma IsoRoundTrip(t: Instant)
    requires IsInstant(t)
    ensures ParseIso(IsoText(t)) == Some(t)
  {
    ReadBack(t);
  }

  /** Which years have a leap day, and the ends of a year. */
  lemma LeapDays()
    ensures IsInstant(Instant(0, 1, 1, 0, 0, 0, 0)) && !IsInstant(Instant(2024, 13, 1, 0, 0, 0, 0))
    ensures IsInstant(Instant(2024, 2, 29, 0, 0, 0, 0)) && !IsInstant(Instant(2023, 2, 29, 0, 0, 0, 0))
    ensures IsInstant(Instant(2000, 2, 29, 0, 0, 0, 0)) && !IsInstant(Instant(1900, 2, 29, 0, 0, 0, 0))
    ensures !IsInstant(Instant(2024, 4, 31, 0, 0, 0, 0)) && IsInstant(Instant(2024, 12, 31, 23, 59, 59, 999))
  {
  }

  lemma KnownIsoText()
    ensures IsoText(Instant(2024, 2, 29, 13, 5, 9, 40)) == "2024-02-29T13:05:09.040Z"
  {
  }

  // ----- the JSON string of an id

  predicate Printable(s: string) {
    forall i :: 0 <= i < |s| ==> ' ' <= s[i] <= '~'
  }

  function Escape(id: string): string {
    if id == "" then ""
    else (if id[0] == '"' || id[0] == '\\' then ['\\', id[0]] else [id[0]]) + Escape(id[1..])
  }

  function Prepend(c: char, read: Option<(string, string)>): Option<(string, string)> {
    match read
    case None => None
    case Some((value, after)) => Some(([c] + value, after))
  }

  /** The value of a JSON string body and the text after its closing quote. */
  function ReadString(s: string): Option<(string, string)>
    decreases |s|
  {
    if s == "" || s[0] < ' ' then None
    else if s[0] == '"' then Some(("", s[1..]))
    else if s[0] != '\\' then Prepend(s[0], ReadString(s[1..]))
    else if |s| > 1 && (s[1] == '"' || s[1] == '\\' || s[1] == '/') then Prepend(s[1], ReadString(s[2..]))
    else None
  }

  lemma ReadPlain(c: char, tail: string)
    requires c >= ' ' && c != '"' && c != '\\'
    ensures ReadString([c] + tail) == Prepend(c, ReadString(tail))
  {
    assert ([c] + tail)[1..] == tail;
  }

  lemma ReadEscaped(c: char, tail: string)
    requires c == '"' || c == '\\'
    ensures ReadString(['\\', c] + tail) == Prepend(c, ReadString(tail))
  {
    assert (['\\', c] + tail)[2..] == tail;
  }

  lemma EscapeFirst(id: string, after: string)
    requires id != ""
    ensures Escape(id) + ['"'] + after
         == (if id[0] == '"' || id[0] == '\\' then ['\\', id[0]] else [id[0]]) + (Escape(id[1..]) + ['"'] + after)
  {
  }

  lemma ReadFirst(c: char, tail: string, value: string, after: string)
    requires c >= ' ' && ReadString(tail) == Some((value, after))
    ensures ReadString((if c == '"' || c == '\\' then ['\\', c] else [c]) + tail) == Some(([c] + value, after))
  {
    if c == '"' || c == '\\' {
      ReadEscaped(c, tail);
    } else {
      ReadPlain(c, tail);
    }
  }

  lemma {:induction false} EscapeRoundTrip(id: string, after: string)
    requires Printable(id)
    ensures ReadString(Escape(id) + ['"'] + after) == Some((id, after))
  {
    if id == "" {
      assert Escape(id) + ['"'] + after == ['"'] + after;
      assert (['"'] + after)[1..] == after;
    } else {
      EscapeRoundTrip(id[1..], after);
      EscapeFirst(id, after);
      ReadFirst(id[0], Escape(id[1..]) + ['"'] + after, id[1..], after);
      assert id == [id[0]] + id[1..];
    }
  }

  lemma {:induction false} EscapeForm(id: string)
    requires Printable(id)
    ensures Printable(Escape(id)) && |id| <= |Escape(id)|
  {
    if id != "" {
      EscapeForm(id[1..]);
    }
  }

  lemma {:induction false} NothingToEscape(id: string)
    requires forall i :: 0 <= i < |id| ==> id[i] != '"' && id[i] != '\\'
    ensures Escape(id) == id
  {
    if id != "" {
      NothingToEscape(id[1..]);
      assert id == [id[0]] + id[1..];
    }
  }

  // ----- the cursor

  datatype Cursor = Cursor(createdAt: Instant, id: string)

  const BEFORE_DATE := "{\"v\":1,\"createdAt\":\""
  const BEFORE_ID := "\",\"id\":\""

  function CursorJson(c: Cursor): string {
    BEFORE_DATE + IsoText(c.createdAt) + BEFORE_ID + Escape(c.id) + ['"'] + "}"
  }

  /** The JSON text of a version-1 cursor, in the spelling that `CursorJson` writes. */
  function ReadCursorJson(s: string): Option<Cursor> {
    if |s| < 52 || s[..20] != BEFORE_DATE || s[44..52] != BEFORE_ID then None
    else
      var createdAt := ParseIso(s[20..44]);
      var id := ReadString(s[52..]);
      if createdAt.None? || id.None? || id.value.1 != "}" then None
      else if id.value.0 == "" || |id.value.0| > MAX_ID_LENGTH then None
      else Some(Cursor(createdAt.value, id.value.0))
  }

  predicate Ascii(s: string) {
    forall i :: 0 <= i < |s| ==> s[i] < 128 as char
  }

  function Utf8(s: string): seq<Byte>
    requires Ascii(s)
  {
    seq(|s|, i requires 0 <= i < |s| => s[i] as int as Byte)
  }

  function Text(b: seq<Byte>): string {
    seq(|b|, i requires 0 <= i < |b| => b[i] as int as char)
  }

  lemma IsoTextIsAscii(t: Instant)
    ensures |IsoText(t)| == 24 && Ascii(IsoText(t))
  {
  }

  lemma JsonIsAscii(c: Cursor)
    requires Printable(c.id)
    ensures Ascii(CursorJson(c)) && |CursorJson(c)| == 54 + |Escape(c.id)|
  {
    EscapeForm(c.id);
    IsoTextIsAscii(c.createdAt);
    assert Ascii(BEFORE_DATE) && Ascii(BEFORE_ID) && Ascii(Escape(c.id));
  }

  function EncodeWorkspaceCursor(c: Cursor): string
    requires IsInstant(c.createdAt) && Printable(c.id)
  {
    JsonIsAscii(c);
    Encode(Utf8(CursorJson(c)))
  }

  datatype CursorInput = NoCursor | From(cursor: Cursor) | Invalid

  function WorkspaceCursorInput(value: Option<string>): CursorInput {
    if value.None? then NoCursor
    else
      var encoded := value.value;
      if encoded == "" || |encoded| > MAX_CURSOR_LENGTH || !IsBase64Url(encoded) then Invalid
      else
        match ReadCursorJson(Text(Decode(encoded)))
        case Some(c) => From(c)
        case None => Invalid
  }

  lemma JsonLayout(a: string, b: string, c: string, d: string)
    requires |a| == 20 && |b| == 24 && |c| == 8
    ensures var s := a + b + c + d;
            s[..20] == a && s[20..44] == b && s[44..52] == c && s[52..] == d
  {
  }

  lemma JsonRoundTrip(c: Cursor)
    requires IsInstant(c.createdAt) && Printable(c.id)
    ensures ReadCursorJson(CursorJson(c)) == if 1 <= |c.id| <= 200 then Some(c) else None
  {
    var s := CursorJson(c);
    EscapeRoundTrip(c.id, "}");
    EscapeForm(c.id);
    IsoRoundTrip(c.createdAt);
    var iso, tail := IsoText(c.createdAt), Escape(c.id) + ['"'] + "}";
    JsonLayout(BEFORE_DATE, iso, BEFORE_ID, tail);
    assert s == BEFORE_DATE + iso + BEFORE_ID + tail;
  }

  /** The route accepts back exactly those of its own cursors whose id passes this test. */
  predicate CursorSafe(id: string) {
    1 <= |id| <= 200 && |Escape(id)| <= 321
  }

  lemma CursorRoundTrip(c: Cursor)
    requires IsInstant(c.createdAt) && Printable(c.id)
    ensures WorkspaceCursorInput(Some(EncodeWorkspaceCursor(c))) == if CursorSafe(c.id) then From(c) else Invalid
  {
    JsonIsAscii(c);
    var bytes := Utf8(CursorJson(c));
    RoundTrip(bytes);
    EncodeForm(bytes);
    assert Text(bytes) == CursorJson(c);
    JsonRoundTrip(c);
    EscapeForm(c.id);
  }

  /** Ids that need no escape always come back. */
  lemma PlainIdsAreSafe(id: string)
    requires 1 <= |id| <= 200
    requires forall i :: 0 <= i < |id| ==> id[i] != '"' && id[i] != '\\'
    ensures CursorSafe(id)
  {
    NothingToEscape(id);
  }

  function Quotes(n: nat): (s: string)
    ensures |s| == n && Printable(s)
  {
    if n == 0 then "" else ['"'] + Quotes(n - 1)
  }

  lemma {:induction false} QuotesEscape(n: nat)
    ensures |Escape(Quotes(n))| == 2 * n
  {
    if n > 0 {
      QuotesEscape(n - 1);
      assert Quotes(n)[1..] == Quotes(n - 1);
    }
  }

  /** An id within the length guard whose cursor the route itself then rejects. */
  lemma QuotedIdIsRejected(createdAt: Instant)
    requires IsInstant(createdAt)
    ensures |Quotes(161)| <= 200
    ensures WorkspaceCursorInput(Some(EncodeWorkspaceCursor(Cursor(createdAt, Quotes(161))))) == Invalid
  {
    QuotesEscape(161);
    CursorRoundTrip(Cursor(createdAt, Quotes(161)));
  }
}
