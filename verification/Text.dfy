/** Splitting and fitting of notification text.

    Splitting counts runes, so a text is a sequence of characters. Fitting counts bytes,
    so there a character is one byte.
 */
module Text {
  import opened Crypto

  const NEWLINE := '\n'

  /** Unicode white space. */
  predicate Space(c: char) {
    var x := c as int;
    0x09 <= x <= 0x0D || x == 0x20 || x == 0x85 || x == 0xA0 || x == 0x1680 || 0x2000 <= x <= 0x200A
    || x == 0x2028 || x == 0x2029 || x == 0x202F || x == 0x205F || x == 0x3000
  }

  /** The text without its white space. */
  function Ink(s: string): string {
    if s == "" then "" else Ink(s[..|s| - 1]) + (if Space(s[|s| - 1]) then "" else [s[|s| - 1]])
  }

  function InkOf(parts: seq<string>): string {
    if parts == [] then "" else InkOf(parts[..|parts| - 1]) + Ink(parts[|parts| - 1])
  }

  lemma {:induction false} InkConcat(a: string, b: string)
    ensures Ink(a + b) == Ink(a) + Ink(b)
    decreases |b|
  {
    if b == "" {
      assert a + b == a;
    } else {
      var n := |b| - 1;
      assert (a + b)[..|a| + n] == a + b[..n];
      InkConcat(a, b[..n]);
    }
  }

  lemma InkPart(s: string, cut: nat)
    requires cut <= |s|
    ensures Ink(s) == Ink(s[..cut]) + Ink(s[cut..])
  {
    assert s == s[..cut] + s[cut..];
    InkConcat(s[..cut], s[cut..]);
  }

  lemma InkOfSnoc(parts: seq<string>, last: string)
    ensures InkOf(parts + [last]) == InkOf(parts) + Ink(last)
  {
    assert (parts + [last])[..|parts|] == parts;
  }

  lemma InkNewline()
    ensures Ink([NEWLINE]) == "" && Ink("") == ""
  {
    assert [NEWLINE][..0] == "";
  }

  /** Everything between line breaks, which may be nothing. */
  function Lines(s: string): (r: seq<string>)
    ensures r != [] && forall line | line in r :: NEWLINE !in line
  {
    if s == "" then [""]
    else
      var before := Lines(s[..|s| - 1]);
      var n := |before| - 1;
      if s[|s| - 1] == NEWLINE then before + [""] else before[..n] + [before[n] + [s[|s| - 1]]]
  }

  lemma SplitLast<T>(s: seq<T>)
    requires s != []
    ensures s == s[..|s| - 1] + [s[|s| - 1]]
  {
  }

  lemma InkOfLast(front: seq<string>, last: string, c: char)
    ensures InkOf(front + [last + [c]]) == InkOf(front + [last]) + Ink([c])
  {
    hide Ink, InkOf;
    InkOfSnoc(front, last);
    InkOfSnoc(front, last + [c]);
    InkConcat(last, [c]);
  }

  /** Splitting into lines loses line breaks only. */
  lemma {:induction false} LinesKeepInk(s: string)
    ensures InkOf(Lines(s)) == Ink(s)
    decreases |s|
  {
    hide Ink, InkOf;
    InkNewline();
    if s == "" {
      NoInk();
      InkOfSnoc([], "");
      assert [] + [""] == [""];
    } else {
      var before, c := Lines(s[..|s| - 1]), s[|s| - 1];
      LinesKeepInk(s[..|s| - 1]);
      InkPart(s, |s| - 1);
      assert s[|s| - 1..] == [c];
      InkOfSnoc(before, "");
      SplitLast(before);
      InkOfLast(before[..|before| - 1], before[|before| - 1], c);
    }
  }

  /** Without line breaks at its edges. */
  function TrimRight(s: string): (r: string)
    ensures |r| <= |s| && r <= s
    ensures (forall i | |r| <= i < |s| :: s[i] == NEWLINE) && (r != "" ==> r[|r| - 1] != NEWLINE)
  {
    if s != "" && s[|s| - 1] == NEWLINE then TrimRight(s[..|s| - 1]) else s
  }

  function TrimLeft(s: string): (r: string)
    ensures |r| <= |s| && r == s[|s| - |r|..]
    ensures (forall i | 0 <= i < |s| - |r| :: s[i] == NEWLINE) && (r != "" ==> r[0] != NEWLINE)
  {
    if s != "" && s[0] == NEWLINE then TrimLeft(s[1..]) else s
  }

  lemma {:induction false} TrimRightKeepsInk(s: string)
    ensures Ink(TrimRight(s)) == Ink(s)
    decreases |s|
  {
    if s != "" && s[|s| - 1] == NEWLINE { TrimRightKeepsInk(s[..|s| - 1]); }
  }

  lemma {:induction false} TrimLeftKeepsInk(s: string)
    ensures Ink(TrimLeft(s)) == Ink(s)
    decreases |s|
  {
    if s != "" && s[0] == NEWLINE {
      TrimLeftKeepsInk(s[1..]);
      InkPart(s, 1);
      InkNewline();
      assert s[..1] == [NEWLINE];
    }
  }

  // ---------------------------------------------------------------- chunks

  /** The chunk that a flush emits; a blank one is dropped. */
  method Flush(chunks: seq<string>, current: string, maxRunes: nat) returns (next: seq<string>)
    requires |current| <= maxRunes
    ensures InkOf(next) == InkOf(chunks) + Ink(current)
    ensures next == chunks || (|next| == |chunks| + 1 && next[..|chunks|] == chunks && |next[|chunks|]| <= maxRunes
        && Ink(next[|chunks|]) != "")
  {
    var text := TrimLeft(TrimRight(current));
    TrimRightKeepsInk(current);
    TrimLeftKeepsInk(TrimRight(current));
    if Ink(text) != "" {
      InkOfSnoc(chunks, text);
      next := chunks + [text];
    } else {
      next := chunks;
    }
  }

  ghost predicate Chunked(chunks: seq<string>, maxRunes: nat) {
    forall i | 0 <= i < |chunks| :: 0 < |chunks[i]| <= maxRunes && Ink(chunks[i]) != ""
  }

  /** Splits a body into chunks of at most maxRunes runes. Unless the body is blank, every
      chunk is within the bound and shows something, and nothing but white space is lost
      or reordered; a blank body is one chunk as it is. */
  method PartitionLines(body: string, maxRunes: nat) returns (chunks: seq<string>)
    requires maxRunes >= 1
    ensures Ink(body) != "" ==> Chunked(chunks, maxRunes)
    ensures InkOf(chunks) == Ink(body)
    ensures Ink(body) == "" ==> chunks == [body]
    ensures chunks != []
  {
    hide Ink, InkOf, Lines, Space;
    InkNewline();
    var lines := Lines(body);
    LinesKeepInk(body);
    NoInk();
    chunks := [];
    var current := "";
    assert lines[..0] == [];
    for i := 0 to |lines|
      invariant Chunked(chunks, maxRunes) && |current| <= maxRunes
      invariant InkOf(chunks) + Ink(current) == InkOf(lines[..i])
    {
      var text := lines[i];
      assert lines[..i + 1] == lines[..i] + [text];
      InkOfSnoc(lines[..i], text);
      while |text| > maxRunes
        invariant Chunked(chunks, maxRunes) && |current| <= maxRunes
        invariant InkOf(chunks) + Ink(current) + Ink(text) == InkOf(lines[..i + 1])
        decreases |text|
      {
        chunks := Flush(chunks, current, maxRunes);
        ChunkedMore(chunks, maxRunes);
        current := text[..maxRunes];
        chunks := Flush(chunks, current, maxRunes);
        ChunkedMore(chunks, maxRunes);
        InkPart(text, maxRunes);
        current := "";
        text := text[maxRunes..];
      }
      var separator := if |current| > 0 then 1 else 0;
      if |current| + separator + |text| > maxRunes {
        chunks := Flush(chunks, current, maxRunes);
        ChunkedMore(chunks, maxRunes);
        current, separator := "", 0;
      }
      ghost var before := current;
      if separator == 1 {
        InkConcat(current, [NEWLINE]);
        current := current + [NEWLINE];
      }
      InkConcat(current, text);
      current := current + text;
    }
    assert lines[..|lines|] == lines;
    chunks := Flush(chunks, current, maxRunes);
    ChunkedMore(chunks, maxRunes);
    if |chunks| == 0 {
      chunks := [body];
      InkOfSnoc([], body);
      assert [] + [body] == [body];
    } else {
      SomeInk(chunks);
    }
  }

  lemma NoInk()
    ensures InkOf([]) == ""
  {
  }

  lemma ChunkedMore(chunks: seq<string>, maxRunes: nat)
    requires forall i | 0 <= i < |chunks| :: |chunks[i]| <= maxRunes && Ink(chunks[i]) != ""
    ensures Chunked(chunks, maxRunes)
  {
    forall i | 0 <= i < |chunks| ensures |chunks[i]| > 0 { if chunks[i] == "" { InkNewline(); } }
  }

  lemma SomeInk(chunks: seq<string>)
    requires chunks != [] && forall i | 0 <= i < |chunks| :: Ink(chunks[i]) != ""
    ensures InkOf(chunks) != ""
  {
  }

  // ---------------------------------------------------------------- fitting

  datatype Format = Markdown | Plain | Html

  /** The omission notes, given how many non-blank lines and high-severity changes were
      dropped: `more` follows kept lines and `only` stands alone. `high` counts the
      high-severity changes of dropped lines, `blank` recognises lines of white space. */
  datatype Notes = Notes(more: (Format, nat, nat) -> string, only: (Format, nat, nat) -> string,
                         high: seq<string> -> nat, blank: string -> bool)

  /** Lines with their line breaks. */
  function SplitAfter(s: string): (r: seq<string>)
    ensures r != [] && NEWLINE !in r[|r| - 1]
    ensures forall i | 0 <= i < |r| - 1 :: r[i] != "" && r[i][|r[i]| - 1] == NEWLINE && NEWLINE !in r[i][..|r[i]| - 1]
  {
    if s == "" then [""]
    else
      var before := SplitAfter(s[..|s| - 1]);
      var n := |before| - 1;
      if s[|s| - 1] == NEWLINE then before[..n] + [before[n] + [NEWLINE], ""]
      else before[..n] + [before[n] + [s[|s| - 1]]]
  }

  function Join(lines: seq<string>): string {
    if lines == [] then "" else Join(lines[..|lines| - 1]) + lines[|lines| - 1]
  }

  lemma JoinSnoc(lines: seq<string>, last: string)
    ensures Join(lines + [last]) == Join(lines) + last
  {
    assert (lines + [last])[..|lines|] == lines;
  }

  /** One more character at the end of the last line. */
  lemma JoinLast(front: seq<string>, last: string, c: char)
    ensures Join(front + [last + [c]]) == Join(front + [last]) + [c]
  {
    hide Join;
    JoinSnoc(front, last);
    JoinSnoc(front, last + [c]);
  }

  lemma JoinEmptyLast(front: seq<string>, last: string)
    ensures Join(front + [last, ""]) == Join(front + [last])
  {
    hide Join;
    JoinSnoc(front + [last], "");
    assert front + [last, ""] == front + [last] + [""];
  }

  /** Keeping all lines keeps the message. */
  lemma {:induction false} JoinSplitAfter(s: string)
    ensures Join(SplitAfter(s)) == s
    decreases |s|
  {
    hide Join;
    if s == "" {
      JoinNone();
      JoinSnoc([], "");
      assert [] + [""] == [""];
    } else {
      var before, c := SplitAfter(s[..|s| - 1]), s[|s| - 1];
      JoinSplitAfter(s[..|s| - 1]);
      SplitLast(before);
      SplitLast(s);
      JoinLast(before[..|before| - 1], before[|before| - 1], c);
      JoinEmptyLast(before[..|before| - 1], before[|before| - 1] + [c]);
    }
  }

  /** Both ways of splitting have the same lines. */
  lemma {:induction false} LinesAre(s: string)
    ensures var (plain, full) := (Lines(s), SplitAfter(s));
      && |plain| == |full| && plain[|plain| - 1] == full[|full| - 1]
      && forall i | 0 <= i < |plain| - 1 :: full[i] == plain[i] + [NEWLINE]
    decreases |s|
  {
    if s != "" { LinesAre(s[..|s| - 1]); }
  }

  lemma JoinNone()
    ensures Join([]) == ""
  {
  }

  function CountLines(notes: Notes, lines: seq<string>): nat {
    if lines == [] then 0
    else CountLines(notes, lines[..|lines| - 1]) + (if notes.blank(lines[|lines| - 1]) then 0 else 1)
  }

  /** The first kept lines and a note about the others. */
  function Shortened(notes: Notes, lines: seq<string>, format: Format, kept: nat): string
    requires kept <= |lines|
  {
    TrimRight(Join(lines[..kept])) + notes.more(format, CountLines(notes, lines[kept..]), notes.high(lines[kept..]))
  }

  /** The count is that of the lines that are not blank. */
  lemma {:induction false} CountIsSize(notes: Notes, lines: seq<string>)
    ensures CountLines(notes, lines) == |set i | 0 <= i < |lines| && !notes.blank(lines[i])|
    decreases |lines|
  {
    if lines != [] {
      var n := |lines| - 1;
      CountIsSize(notes, lines[..n]);
      var before := set i | 0 <= i < n && !notes.blank(lines[..n][i]);
      assert (set i | 0 <= i < |lines| && !notes.blank(lines[i])) == before + if notes.blank(lines[n]) then {} else {n};
    }
  }

  lemma {:induction false} JoinPrefix(lines: seq<string>, kept: nat)
    requires kept <= |lines|
    ensures Join(lines[..kept]) <= Join(lines)
    decreases |lines|
  {
    if kept == |lines| {
      assert lines[..kept] == lines;
    } else {
      var n := |lines| - 1;
      assert lines[..n][..kept] == lines[..kept];
      JoinPrefix(lines[..n], kept);
    }
  }

  /** A shortened message is the start of the message up to the end of a kept line's text,
      and the note that counts the lines from there on that are not blank. */
  lemma ShortenedMeans(notes: Notes, message: string, format: Format, kept: nat)
    returns (start: string, left: seq<string>)
    requires kept <= |SplitAfter(message)|
    ensures left == SplitAfter(message)[kept..] && start <= message && (start != "" ==> start[|start| - 1] != NEWLINE)
    ensures var at := |Join(SplitAfter(message)[..kept])|;
      |start| <= at <= |message| && forall i | |start| <= i < at :: message[i] == NEWLINE
    ensures Shortened(notes, SplitAfter(message), format, kept) ==
      start + notes.more(format, |set i | 0 <= i < |left| && !notes.blank(left[i])|, notes.high(left))
  {
    hide Join, SplitAfter, TrimRight, CountLines;
    var lines := SplitAfter(message);
    left := lines[kept..];
    var text := Join(lines[..kept]);
    start := TrimRight(text);
    JoinPrefix(lines, kept);
    JoinSplitAfter(message);
    CountIsSize(notes, left);
  }

  /** First byte of a rune. */
  predicate RuneStart(c: char) {
    (c as int) / 64 != 2
  }

  /** A byte prefix that does not split a rune. */
  predicate WholeRunes(s: string, cut: nat) {
    cut < |s| && (cut == 0 || RuneStart(s[cut]))
  }

  ghost predicate CutTo(s: string, limit: int, r: string) {
    if |s| <= limit then r == s
    else r <= s && |r| <= limit && WholeRunes(s, |r|) && forall cut | |r| < cut <= limit :: !WholeRunes(s, cut)
  }

  /** A cut text ends before a byte that starts a rune, and only continuation bytes lie
      between there and the limit. */
  lemma CutMeans(s: string, limit: nat, r: string)
    requires CutTo(s, limit, r) && |s| > limit
    ensures r <= s && |r| <= limit && (r != "" ==> !(0x80 <= s[|r|] as int <= 0xBF))
    ensures forall i | |r| < i <= limit :: 0x80 <= s[i] as int <= 0xBF
  {
    forall i | |r| < i <= limit ensures 0x80 <= s[i] as int <= 0xBF { assert !WholeRunes(s, i); }
  }

  method TruncateBytes(value: string, limit: nat) returns (r: string)
    ensures CutTo(value, limit, r)
  {
    if |value| <= limit { return value; }
    var cut := limit;
    while cut > 0 && !RuneStart(value[cut])
      invariant 0 <= cut <= limit
      invariant forall c | cut < c <= limit :: !WholeRunes(value, c)
    {
      cut := cut - 1;
    }
    return value[..cut];
  }

  /** How a message is fitted: unchanged, cut after the largest number of whole lines that
      fits with an exact note, replaced by the note, or by the start of the plain note. */
  ghost predicate Fitted(notes: Notes, message: string, limit: int, format: Format, r: string) {
    if limit <= 0 || |message| <= limit then r == message
    else
      var lines := SplitAfter(message);
      || (exists kept | 1 <= kept < |lines| ::
            && r == Shortened(notes, lines, format, kept) && |r| <= limit
            && forall more | kept < more < |lines| :: |Shortened(notes, lines, format, more)| > limit)
      || ((forall kept | 1 <= kept < |lines| :: |Shortened(notes, lines, format, kept)| > limit)
          && var note := notes.only(format, CountLines(notes, lines), notes.high(lines));
             if |note| <= limit then r == note
             else CutTo(notes.only(Plain, CountLines(notes, lines), notes.high(lines)), limit, r))
  }

  lemma FittedAt(notes: Notes, message: string, limit: int, format: Format, kept: nat)
    requires 0 < limit < |message| && 1 <= kept < |SplitAfter(message)|
    requires |Shortened(notes, SplitAfter(message), format, kept)| <= limit
    requires forall more | kept < more < |SplitAfter(message)| ::
        |Shortened(notes, SplitAfter(message), format, more)| > limit
    ensures Fitted(notes, message, limit, format, Shortened(notes, SplitAfter(message), format, kept))
  {
    hide SplitAfter, Shortened, CutTo;
  }

  method FitMessageFor(notes: Notes, message: string, limit: int, format: Format) returns (r: string)
    ensures Fitted(notes, message, limit, format, r)
    ensures limit > 0 ==> |r| <= limit
  {
    hide Join, CountLines, SplitAfter, TrimRight, CutTo;
    if limit <= 0 || |message| <= limit { return message; }
    var lines := SplitAfter(message);
    var kept := |lines| - 1;
    while kept >= 1
      invariant 0 <= kept < |lines|
      invariant forall more | kept < more < |lines| :: |Shortened(notes, lines, format, more)| > limit
    {
      var note := notes.more(format, CountLines(notes, lines[kept..]), notes.high(lines[kept..]));
      var body := TrimRight(Join(lines[..kept]));
      if |body| + |note| <= limit {
        assert body + note == Shortened(notes, lines, format, kept);
        FittedAt(notes, message, limit, format, kept);
        return body + note;
      }
      kept := kept - 1;
    }
    var note := notes.only(format, CountLines(notes, lines), notes.high(lines));
    if |note| <= limit { return note; }
    r := TruncateBytes(notes.only(Plain, CountLines(notes, lines), notes.high(lines)), limit);
    CutWithin(notes.only(Plain, CountLines(notes, lines), notes.high(lines)), limit, r);
  }

  lemma CutWithin(s: string, limit: int, r: string)
    requires CutTo(s, limit, r)
    ensures |r| <= limit
  {
  }

  // ---------------------------------------------------------------- footer and title

  /** A message with a footer: whole when it fits, else with the footer kept when it may
      take half of the room, else fitted as one text. */
  method Shorten(notes: Notes, text: string, footer: string, limit: int, format: Format) returns (r: string)
    ensures limit > 0 ==> |r| <= limit
    ensures footer != "" && (|text| + 1 + |footer| <= limit || limit <= 0) ==> r == text + [NEWLINE] + footer
    ensures footer == "" && (|text| <= limit || limit <= 0) ==> r == text
    ensures footer != "" && limit - |footer| - 1 > |footer| ==>
      |r| > |footer| && r[|r| - |footer| - 1..] == [NEWLINE] + footer
      && (|text| + 1 + |footer| > limit ==> Fitted(notes, text, limit - |footer| - 1, format, r[..|r| - |footer| - 1]))
  {
    hide Fitted;
    if footer == "" {
      UnchangedWhenFitted(notes, text, limit, format);
      r := FitMessageFor(notes, text, limit, format);
      return;
    }
    var whole := text + [NEWLINE] + footer;
    if |whole| <= limit || limit <= 0 {
      assert whole[|whole| - |footer| - 1..] == [NEWLINE] + footer;
      return whole;
    }
    var room := limit - |footer| - 1;
    if room > |footer| {
      var fitted := FitMessageFor(notes, text, room, format);
      r := fitted + [NEWLINE] + footer;
      assert r[|r| - |footer| - 1..] == [NEWLINE] + footer && r[..|r| - |footer| - 1] == fitted;
      return;
    }
    r := FitMessageFor(notes, whole, limit, format);
  }

  lemma UnchangedWhenFitted(notes: Notes, text: string, limit: int, format: Format)
    ensures forall r | Fitted(notes, text, limit, format, r) && (|text| <= limit || limit <= 0) :: r == text
  {
    hide SplitAfter, Shortened;
  }

  const MAX_TITLE_BYTES := 200

  /** The smallest budget of a known service. */
  const SMALLEST_LIMIT := 1024

  /** The body of a message whose title is sent separately, with the title's size and one
      separator reserved. */
  method ReserveTitle(notes: Notes, title: string, body: string, footer: string, limit: int, format: Format)
    returns (r: string)
    requires body != ""
    ensures limit > 0 ==> (|title| + 1 + |r| <= limit <==> |title| + 1 < limit)
    ensures |title| <= MAX_TITLE_BYTES && limit >= SMALLEST_LIMIT ==> |title| + 1 + |r| <= limit
  {
    r := Shorten(notes, body, footer, limit - |title| - 1, format);
  }
}
