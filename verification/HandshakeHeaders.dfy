/**
 The head of an upgrade response and its filter (apps/web/src/screen-proxy.ts). A head is the
 bytes before its terminator; its lines end in CR LF, and its bytes are read as Latin-1.
 */
module HandshakeHeaders {
  import opened Wire

  /** CR LF CR LF, the end of a response head (section 2.1 of RFC 9112). */
  const TERMINATOR: Bytes := [13, 10, 13, 10]
  const CRLF: Bytes := [13, 10]

  predicate TerminatorAt(s: Bytes, i: int) {
    0 <= i && i + 4 <= |s| && s[i] == 13 && s[i + 1] == 10 && s[i + 2] == 13 && s[i + 3] == 10
  }

  // ----- lines

  predicate StartsCrlf(s: Bytes) {
    |s| >= 2 && s[0] == 13 && s[1] == 10
  }

  /** `split("\r\n")`. */
  function Lines(s: Bytes): (lines: seq<Bytes>)
    ensures lines != []
  {
    if s == [] then [[]]
    else if StartsCrlf(s) then [[]] + Lines(s[2..])
    else Longer(s[0], Lines(s[1..]))
  }

  /** `join("\r\n")`. */
  function Join(lines: seq<Bytes>): Bytes
    requires lines != []
  {
    if |lines| == 1 then lines[0] else lines[0] + CRLF + Join(lines[1..])
  }

  predicate IsLine(line: Bytes) {
    forall i :: 0 <= i < |line| - 1 ==> line[i] != 13 || line[i + 1] != 10
  }

  predicate AreLines(lines: seq<Bytes>) {
    forall i :: 0 <= i < |lines| ==> IsLine(lines[i])
  }

  /** One byte more on the first line. */
  function Longer(c: Byte, lines: seq<Bytes>): seq<Bytes>
    requires lines != []
  {
    [[c] + lines[0]] + lines[1..]
  }

  lemma JoinLonger(c: Byte, lines: seq<Bytes>)
    requires lines != []
    ensures Join(Longer(c, lines)) == [c] + Join(lines)
  {
    assert Longer(c, lines)[1..] == lines[1..];
  }

  lemma JoinEmptyFirst(lines: seq<Bytes>)
    requires lines != []
    ensures Join([[]] + lines) == CRLF + Join(lines)
  {
    assert ([[]] + lines)[1..] == lines;
  }

  lemma {:induction false} JoinLines(s: Bytes)
    ensures Join(Lines(s)) == s
  {
    if StartsCrlf(s) {
      JoinLines(s[2..]);
      JoinEmptyFirst(Lines(s[2..]));
      assert s == CRLF + s[2..];
    } else if s != [] {
      JoinLines(s[1..]);
      JoinLonger(s[0], Lines(s[1..]));
      assert s == [s[0]] + s[1..];
    }
  }

  lemma {:induction false} LinesAreLines(s: Bytes)
    ensures AreLines(Lines(s))
  {
    if StartsCrlf(s) {
      LinesAreLines(s[2..]);
    } else if s != [] {
      var rest := Lines(s[1..]);
      assert Lines(s) == Longer(s[0], rest);
      LinesAreLines(s[1..]);
      JoinLines(s[1..]);
      assert rest[0] != [] ==> rest[0][0] == s[1];
      assert IsLine(rest[0]);
    }
  }

  lemma {:induction false} LinesOfJoin(lines: seq<Bytes>)
    requires lines != [] && AreLines(lines)
    ensures Lines(Join(lines)) == lines
    decreases |lines|, |lines[0]|
  {
    if lines[0] == [] {
      if |lines| > 1 {
        assert IsLine(lines[1]) && AreLines(lines[1..]);
        LinesOfJoin(lines[1..]);
        assert lines == [[]] + lines[1..];
        JoinEmptyFirst(lines[1..]);
        assert Join(lines)[2..] == Join(lines[1..]);
      }
    } else {
      var c, shorter := lines[0][0], [lines[0][1..]] + lines[1..];
      assert [c] + shorter[0] == lines[0] && shorter[1..] == lines[1..];
      assert lines == Longer(c, shorter);
      assert AreLines(shorter);
      LinesOfJoin(shorter);
      JoinLonger(c, shorter);
      NotCrlf(lines);
      assert Join(lines)[1..] == Join(shorter);
    }
  }

  lemma NotCrlf(lines: seq<Bytes>)
    requires lines != [] && lines[0] != [] && IsLine(lines[0])
    ensures Join(lines) != [] && !StartsCrlf(Join(lines))
  {
  }

  // ----- the filter

  predicate IsSpace(b: Byte) {
    9 <= b <= 13 || b == 32 || b == 160
  }

  function Trim(s: Bytes): Bytes {
    if s == [] then []
    else if IsSpace(s[0]) then Trim(s[1..])
    else if IsSpace(s[|s| - 1]) then Trim(s[..|s| - 1])
    else s
  }

  function Lower(b: Byte): Byte {
    if 65 <= b <= 90 then b + 32 else b
  }

  /** The text before the first colon, or all of it. */
  function NameOf(line: Bytes): Bytes {
    if line == [] || line[0] == 58 then [] else [line[0]] + NameOf(line[1..])
  }

  function Text(s: Bytes): string {
    seq(|s|, i requires 0 <= i < |s| => Lower(s[i]) as int as char)
  }

  const SENSITIVE_RESPONSE_HEADERS := {
    "clear-site-data", "content-security-policy", "content-security-policy-report-only",
    "set-cookie", "set-cookie2", "x-frame-options"}

  predicate Sensitive(line: Bytes) {
    Text(Trim(NameOf(line))) in SENSITIVE_RESPONSE_HEADERS
  }

  function Keep(lines: seq<Bytes>): seq<Bytes> {
    if lines == [] then [] else (if Sensitive(lines[0]) then [] else [lines[0]]) + Keep(lines[1..])
  }

  /** The status line, and every other line that is not sensitive. */
  function SafeLines(lines: seq<Bytes>): seq<Bytes>
    requires lines != []
  {
    [lines[0]] + Keep(lines[1..])
  }

  function FilterHead(head: Bytes): Bytes {
    Join(SafeLines(Lines(head)))
  }

  lemma {:induction false} KeepMembers(lines: seq<Bytes>)
    ensures forall line :: line in Keep(lines) <==> line in lines && !Sensitive(line)
  {
    if lines != [] {
      KeepMembers(lines[1..]);
      assert lines == [lines[0]] + lines[1..];
    }
  }

  /** The lines that stay, stay in order: each alone, and one part of the lines after the other. */
  lemma {:induction false} KeepInOrder(a: seq<Bytes>, b: seq<Bytes>)
    ensures Keep(a + b) == Keep(a) + Keep(b)
    ensures forall line :: Keep([line]) == if Sensitive(line) then [] else [line]
  {
    if a == [] {
      assert a + b == b;
    } else {
      assert (a + b)[1..] == a[1..] + b;
      KeepInOrder(a[1..], b);
    }
  }

  /** A reader of the filtered head finds exactly the status line and the lines that are not sensitive, in order. */
  lemma FilteredHeadReadsBack(head: Bytes)
    ensures Lines(FilterHead(head)) == SafeLines(Lines(head))
    ensures Lines(FilterHead(head))[0] == Lines(head)[0]
    ensures forall line :: line in Lines(FilterHead(head))[1..] <==> line in Lines(head)[1..] && !Sensitive(line)
  {
    var lines := Lines(head);
    LinesAreLines(head);
    KeepMembers(lines[1..]);
    assert forall line :: line in SafeLines(lines) ==> line in lines && IsLine(line);
    assert AreLines(SafeLines(lines));
    LinesOfJoin(SafeLines(lines));
  }

  lemma {:induction false} NameOfHeader(name: Bytes, rest: Bytes)
    requires 58 !in name && (rest == [] || rest[0] == 58)
    ensures NameOf(name + rest) == name
  {
    if name != [] {
      assert (name + rest)[1..] == name[1..] + rest;
      NameOfHeader(name[1..], rest);
    }
  }

  lemma {:induction false} TrimPadded(before: Bytes, name: Bytes, after: Bytes)
    requires forall b :: b in before + after ==> IsSpace(b)
    requires name != [] && !IsSpace(name[0]) && !IsSpace(name[|name| - 1])
    ensures Trim(before + name + after) == name
    decreases |before| + |after|
  {
    var s := before + name + after;
    if before != [] {
      assert s[1..] == before[1..] + name + after;
      TrimPadded(before[1..], name, after);
    } else if after != [] {
      assert s[..|s| - 1] == before + name + after[..|after| - 1];
      TrimPadded(before, name, after[..|after| - 1]);
    } else {
      assert s == name;
    }
  }

  /**
   A header line is withheld exactly when its name, without the spaces around it and in any mix of cases, is one
   of six.
   */
  lemma SensitiveExactly(before: Bytes, name: Bytes, after: Bytes, rest: Bytes)
    requires forall b :: b in before + after ==> b in [9, 10, 11, 12, 13, 32, 160]
    requires name != [] && 58 !in name && (rest == [] || rest[0] == 58)
    requires name[0] !in [9, 10, 11, 12, 13, 32, 160] && name[|name| - 1] !in [9, 10, 11, 12, 13, 32, 160]
    ensures Sensitive(before + name + after + rest) <==>
            exists word :: word in {"set-cookie", "set-cookie2", "clear-site-data", "x-frame-options",
                                    "content-security-policy", "content-security-policy-report-only"}
                           && Spells(name, word)
  {
    assert before + name + after + rest == (before + name + after) + rest;
    assert forall b :: b in before || b in after ==> b in before + after;
    NameOfHeader(before + name + after, rest);
    TrimPadded(before, name, after);
    forall word ensures Spells(name, word) <==> Text(name) == word {
      if Spells(name, word) {
        assert forall i :: 0 <= i < |word| ==> Text(name)[i] == word[i];
      }
    }
    assert NameOf(before + name + after + rest) == before + name + after && Trim(before + name + after) == name;
    assert Spells(name, Text(name));
  }

  /** The bytes are the letters of a lower-case word, or capitals of them. */
  predicate Spells(name: Bytes, word: string) {
    && |name| == |word|
    && forall i :: 0 <= i < |word| ==>
         word[i] as int == if 65 <= name[i] <= 90 then name[i] as int + 32 else name[i] as int
  }

  // ----- where a filtered head ends

  predicate NoneEmpty(lines: seq<Bytes>) {
    forall i :: 0 <= i < |lines| ==> lines[i] != []
  }

  /** No terminator starts before the end of `head` once one follows it. */
  ghost predicate EndsFirst(head: Bytes) {
    forall j :: 0 <= j < |head| ==> !TerminatorAt(head + TERMINATOR, j)
  }

  /** Where terminators are in a line followed by others. */
  lemma TerminatorsAfterLine(first: Bytes, after: Bytes)
    requires IsLine(first)
    ensures var s := first + CRLF + after;
            && (forall j :: 0 <= j < |first| ==> !TerminatorAt(s, j))
            && (TerminatorAt(s, |first|) <==> StartsCrlf(after))
            && !TerminatorAt(s, |first| + 1)
            && forall j :: 0 <= j ==> (TerminatorAt(after, j) <==> TerminatorAt(s, |first| + 2 + j))
  {
  }

  /** A head ends where its terminator is exactly if only its first line may be empty. */
  lemma {:induction false} EndsFirstExactly(lines: seq<Bytes>)
    requires lines != [] && AreLines(lines)
    ensures EndsFirst(Join(lines)) <==> NoneEmpty(lines[1..])
  {
    var first, s := lines[0], Join(lines) + TERMINATOR;
    assert IsLine(first);
    if |lines| > 1 {
      var rest := lines[1..];
      EndsFirstExactly(rest);
      var after, cut := Join(rest) + TERMINATOR, |first| + 2;
      assert s == first + CRLF + after;
      RestStartsCrlf(rest);
      TerminatorsAfterLine(first, after);
      if NoneEmpty(lines[1..]) {
        assert NoneEmpty(rest[1..]);
        forall j | 0 <= j < |Join(lines)| ensures !TerminatorAt(s, j) {
          assert j >= cut ==> (TerminatorAt(after, j - cut) <==> TerminatorAt(s, cut + (j - cut)));
        }
      } else if rest[0] != [] {
        assert !NoneEmpty(rest[1..]);
        var j :| 0 <= j < |Join(rest)| && TerminatorAt(after, j);
        assert TerminatorAt(s, cut + j);
      }
    }
  }

  lemma RestStartsCrlf(rest: seq<Bytes>)
    requires rest != [] && AreLines(rest)
    ensures StartsCrlf(Join(rest) + TERMINATOR) <==> rest[0] == []
  {
    assert IsLine(rest[0]);
  }

  /** Filtering keeps the end of the head at its first terminator. */
  lemma FilteredHeadEndsFirst(head: Bytes)
    requires EndsFirst(head)
    ensures EndsFirst(FilterHead(head))
  {
    var lines := Lines(head);
    JoinLines(head);
    LinesAreLines(head);
    EndsFirstExactly(lines);
    FilteredHeadReadsBack(head);
    var kept := SafeLines(lines);
    KeepMembers(lines[1..]);
    assert forall i :: 0 <= i < |kept[1..]| ==> kept[1..][i] in Keep(lines[1..]);
    LinesAreLines(FilterHead(head));
    EndsFirstExactly(kept);
  }
}
