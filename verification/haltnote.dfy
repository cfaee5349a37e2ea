/** The note a halted session stores, and the count of pending deletions read back from it. */
module HaltNote {
  import opened Entries
  import opened Snapshot
  import opened Guard
  import opened Decimal

  // ---- printing ----------------------------------------------------------------------------------------

  const CONTENT_LOSS := "content-loss"

  const OF := " of "
  const TRACKED := " tracked entries"
  const SINCE := " since the last sync"

  function SideText(side: LossSide): string {
    match side
    case LocalRoot => "the local root lost "
    case SandboxWorkspace => "the sandbox workspace lost "
  }

  /** The guard's words for a loss. */
  function Detail(loss: ContentLoss): string {
    SideText(loss.side) + Print(loss.lost) + OF + Print(loss.tracked) + (TRACKED + SINCE)
  }

  function Note(reason: string, detail: string): string {
    reason + ": " + detail
  }

  // ---- scanning ------------------------------------------------------------------------------------------

  const MAX_INT := 0x7fff_ffff_ffff_ffff

  function SkipSpaces(s: string): string {
    if s != [] && s[0] == ' ' then SkipSpaces(s[1..]) else s
  }

  /** Matches fixed text: a run of spaces in it stands for one space or more. */
  function MatchText(text: string, s: string): Option<string>
    decreases |text|
  {
    if text == [] then Some(s)
    else if s == [] || s[0] != text[0] then None
    else if text[0] == ' ' then MatchText(text[1..], SkipSpaces(s))
    else MatchText(text[1..], s[1..])
  }

  /** Scans a number that fits a machine integer, after spaces and at most one sign. */
  function ScanInt(s: string): Option<(int, string)> {
    var t := SkipSpaces(s);
    var negative := t != [] && t[0] == '-';
    var u := if t != [] && (t[0] == '-' || t[0] == '+') then t[1..] else t;
    var n := DigitRun(u);
    if n == 0 || Value(u[..n]) > MAX_INT + (if negative then 1 else 0) then None
    else Some((if negative then 0 - Value(u[..n]) else Value(u[..n]), u[n..]))
  }

  /** Scans "<text><lost> of <tracked> tracked entries", whatever follows. */
  function ScanLoss(text: string, note: string): Option<(int, int)> {
    var a := MatchText(text, note);
    if a.None? then None
    else
      var lost := ScanInt(a.value);
      if lost.None? then None
      else
        var b := MatchText(OF, lost.value.1);
        if b.None? then None
        else
          var tracked := ScanInt(b.value);
          if tracked.None? then None
          else if MatchText(TRACKED, tracked.value.1).None? then None
          else Some((lost.value.0, tracked.value.0))
  }

  function PendingDeletionCount(note: string): int {
    var local := ScanLoss(Note(CONTENT_LOSS, SideText(LocalRoot)), note);
    if local.Some? then local.value.0
    else
      var remote := ScanLoss(Note(CONTENT_LOSS, SideText(SandboxWorkspace)), note);
      if remote.Some? then remote.value.0 else 0
  }

  // ---- round trip -----------------------------------------------------------------------------------------

  /** No two spaces in a row, nor one at the end followed by one. */
  predicate SingleSpaced(text: string, rest: string) {
    forall i | 0 <= i < |text| && text[i] == ' ' :: (text + rest)[i + 1..] == [] || (text + rest)[i + 1] != ' '
  }

  /** Text in common is passed over. */
  lemma {:induction false} CommonText(text: string, more: string, rest: string)
    requires SingleSpaced(text, rest)
    ensures MatchText(text + more, text + rest) == MatchText(more, rest)
    decreases |text|
  {
    if text == [] {
      assert text + rest == rest && text + more == more;
    } else {
      var s, tail := text + rest, text[1..] + rest;
      assert s[1..] == tail && (text + more)[1..] == text[1..] + more;
      forall i | 0 <= i < |text[1..]| && text[1..][i] == ' ' ensures tail[i + 1..] == [] || tail[i + 1] != ' ' {
        assert text[i + 1] == ' ' && s[i + 2..] == tail[i + 1..];
      }
      if text[0] == ' ' {
        assert tail == [] || tail[0] != ' ';
        assert SkipSpaces(s) == SkipSpaces(tail) == tail;
      }
      CommonText(text[1..], more, rest);
    }
  }

  lemma TextMatches(text: string, rest: string)
    requires SingleSpaced(text, rest)
    ensures MatchText(text, text + rest) == Some(rest)
  {
    CommonText(text, [], rest);
    assert text + [] == text;
  }

  lemma PrintedScans(n: nat, rest: string)
    requires n <= MAX_INT && rest != [] && !IsDigit(rest[0])
    ensures ScanInt(Print(n) + rest) == Some((n, rest))
  {
    var s := Print(n) + rest;
    assert s[0] == Print(n)[0] && Print(n)[0] in Print(n);
    RunOfPrint(n, rest);
    assert s[..|Print(n)|] == Print(n) && s[|Print(n)|..] == rest;
    ValueOfPrint(n);
  }

  /** The digits a printed number begins with, whatever follows. */
  lemma PrintedDigits(n: nat, rest: string)
    requires rest != [] && !IsDigit(rest[0])
    ensures var s := Print(n) + rest;
            && s[0] != ' ' && s[0] != '-' && s[0] != '+' && SkipSpaces(s) == s
            && DigitRun(s) == |Print(n)| > 0 && Value(s[..|Print(n)|]) == n && s[|Print(n)|..] == rest
  {
    var s := Print(n) + rest;
    assert s[0] == Print(n)[0] && Print(n)[0] in Print(n);
    RunOfPrint(n, rest);
    assert s[..|Print(n)|] == Print(n);
    ValueOfPrint(n);
  }

  /** One sign may come before a number; a number too great for a machine integer is none. */
  lemma SignedScans(sign: char, n: nat, rest: string)
    requires rest != [] && !IsDigit(rest[0]) && (sign == '+' || sign == '-')
    ensures var limit := MAX_INT + (if sign == '-' then 1 else 0);
            ScanInt([sign] + (Print(n) + rest)) == if n > limit then None else Some((if sign == '-' then 0 - n else n, rest))
  {
    var s := Print(n) + rest;
    PrintedDigits(n, rest);
    var t := [sign] + s;
    assert t[0] == sign && t[1..] == s && SkipSpaces(t) == t;
  }

  /** And spaces before it. */
  lemma SpacedScans(n: nat, rest: string)
    requires rest != [] && !IsDigit(rest[0])
    ensures ScanInt([' '] + (Print(n) + rest)) == ScanInt(Print(n) + rest) == if n > MAX_INT then None else Some((n, rest))
  {
    var s := Print(n) + rest;
    PrintedDigits(n, rest);
    var t := [' '] + s;
    assert t[0] == ' ' && t[1..] == s && SkipSpaces(t) == SkipSpaces(s);
  }

  /** Where the text has a space there must be one, */
  lemma SpaceIsNeeded(text: string, more: string, rest: string)
    requires SingleSpaced(text, rest) && (rest == [] || rest[0] != ' ')
    ensures MatchText(text + ([' '] + more), text + rest).None?
  {
    CommonText(text, [' '] + more, rest);
  }

  /** and any more that follow it are passed over. */
  lemma SpacesMatch(text: string, more: string, rest: string)
    requires SingleSpaced(text, [' '] + rest) && rest != [] && rest[0] != ' '
    ensures MatchText(text + ([' '] + more), text + ([' '] + rest)) == MatchText([' '] + more, [' ', ' '] + rest) == MatchText(more, rest)
  {
    var one, two := [' '] + rest, [' ', ' '] + rest;
    CommonText(text, [' '] + more, one);
    assert one[1..] == rest && two[1..] == one && ([' '] + more)[1..] == more;
    assert SkipSpaces(two) == SkipSpaces(one) == SkipSpaces(rest) == rest;
  }

  /** What follows the number in a printed loss. */
  function Tail(loss: ContentLoss): string {
    OF + Print(loss.tracked) + (TRACKED + SINCE)
  }

  lemma NoteParts(loss: ContentLoss)
    ensures Note(CONTENT_LOSS, Detail(loss)) == Note(CONTENT_LOSS, SideText(loss.side)) + (Print(loss.lost) + Tail(loss))
  {
    assert Detail(loss) == SideText(loss.side) + (Print(loss.lost) + Tail(loss));
  }

  lemma LossScans(loss: ContentLoss)
    requires loss.lost <= MAX_INT && loss.tracked <= MAX_INT
    ensures ScanLoss(Note(CONTENT_LOSS, SideText(loss.side)), Note(CONTENT_LOSS, Detail(loss))) == Some((loss.lost, loss.tracked))
  {
    var note := Note(CONTENT_LOSS, Detail(loss));
    var text := Note(CONTENT_LOSS, SideText(loss.side));
    NoteParts(loss);
    assert MatchText(text, note) == Some(Print(loss.lost) + Tail(loss)) by {
      PrintStarts(loss.lost, Tail(loss));
      PrefixMatches(loss.side, Print(loss.lost) + Tail(loss));
    }
    PrintedScans(loss.lost, Tail(loss));
    TailScans(loss);
    WordsMatch();
  }

  lemma TailScans(loss: ContentLoss)
    requires loss.tracked <= MAX_INT
    ensures var b := MatchText(OF, Tail(loss));
            b.Some? && ScanInt(b.value) == Some((loss.tracked, TRACKED + SINCE))
  {
    NumberScans(OF, loss.tracked, TRACKED + SINCE);
  }

  lemma WordsMatch()
    ensures MatchText(TRACKED, TRACKED + SINCE).Some?
  {
    WholeTextMatches(TRACKED, SINCE);
  }

  lemma WholeTextMatches(text: string, rest: string)
    requires SingleSpacedText(text) && rest != [] && text != [] && text[|text| - 1] != ' '
    ensures MatchText(text, text + rest).Some?
  {
    TextMatches(text, rest);
  }

  lemma NumberScans(before: string, n: nat, after: string)
    requires SingleSpacedText(before) && n <= MAX_INT && after != [] && !IsDigit(after[0])
    ensures var t := before + Print(n) + after; MatchText(before, t) == Some(Print(n) + after)
    ensures ScanInt(Print(n) + after) == Some((n, after))
  {
    PrintStarts(n, after);
    assert before + Print(n) + after == before + (Print(n) + after);
    TextMatches(before, Print(n) + after);
    PrintedScans(n, after);
  }

  predicate SingleSpacedText(text: string) {
    forall i | 0 <= i < |text| - 1 && text[i] == ' ' :: text[i + 1] != ' '
  }

  lemma PrintStarts(n: nat, rest: string)
    ensures (Print(n) + rest)[0] != ' '
  {
    assert (Print(n) + rest)[0] in Print(n);
  }

  lemma PrefixMatches(side: LossSide, rest: string)
    requires rest != [] && rest[0] != ' '
    ensures MatchText(Note(CONTENT_LOSS, SideText(side)), Note(CONTENT_LOSS, SideText(side)) + rest) == Some(rest)
  {
    TextThenWord(Note(CONTENT_LOSS, SideText(side)), rest);
  }

  lemma TextThenWord(text: string, rest: string)
    requires SingleSpacedText(text) && rest != [] && rest[0] != ' '
    ensures MatchText(text, text + rest) == Some(rest)
  {
    TextMatches(text, rest);
  }

  lemma OtherSideFails(loss: ContentLoss)
    requires loss.side == SandboxWorkspace
    ensures MatchText(Note(CONTENT_LOSS, SideText(LocalRoot)), Note(CONTENT_LOSS, Detail(loss))).None?
  {
    var rest := Print(loss.lost) + Tail(loss);
    NoteParts(loss);
    assert Note(CONTENT_LOSS, Detail(loss)) == Common() + (Sandbox() + rest);
    WordsDiffer(Common(), Local(), Sandbox() + rest);
  }

  lemma WordsDiffer(text: string, more: string, rest: string)
    requires SingleSpacedText(text) && more != [] && rest != [] && rest[0] != ' ' && more[0] != rest[0]
    ensures MatchText(text + more, text + rest).None?
  {
    CommonText(text, more, rest);
  }

  function Common(): (s: string)
    ensures SingleSpacedText(s)
  {
    CONTENT_LOSS + ": the "
  }

  function Local(): (s: string)
    ensures Note(CONTENT_LOSS, SideText(LocalRoot)) == Common() + s && s[0] == 'l'
  {
    "local root lost "
  }

  function Sandbox(): (s: string)
    ensures Note(CONTENT_LOSS, SideText(SandboxWorkspace)) == Common() + s && s[0] == 's'
  {
    "sandbox workspace lost "
  }

  /** For every halt of the guard, the stored note gives back exactly tracked minus present. */
  lemma NoteRoundTrip(anc: Option<Entry>, local: nat, remote: nat)
    requires GuardContentLoss(anc, local, remote).Some? && CountOf(anc) <= MAX_INT
    ensures var loss := GuardContentLoss(anc, local, remote).value;
            PendingDeletionCount(Note(CONTENT_LOSS, Detail(loss))) ==
            CountOf(anc) - (if loss.side == LocalRoot then local else remote)
  {
    var loss := GuardContentLoss(anc, local, remote).value;
    LossScans(loss);
    if loss.side == SandboxWorkspace { OtherSideFails(loss); }
  }

  lemma SidesDiffer(a: LossSide, b: LossSide, rest: string)
    requires a != b
    ensures MatchText(Note(CONTENT_LOSS, SideText(a)), Note(CONTENT_LOSS, SideText(b)) + rest).None?
  {
    var of, on := if a.LocalRoot? then Local() else Sandbox(), if b.LocalRoot? then Local() else Sandbox();
    assert Note(CONTENT_LOSS, SideText(a)) == Common() + of;
    assert Note(CONTENT_LOSS, SideText(b)) + rest == Common() + (on + rest);
    WordsDiffer(Common(), of, on + rest);
  }

  /** A note that gives two numbers but not what they count counts nothing. */
  lemma WordsNeeded(side: LossSide, lost: nat, tracked: nat, rest: string)
    requires lost <= MAX_INT && tracked <= MAX_INT && rest != [] && !IsDigit(rest[0]) && rest[0] != ' '
    ensures PendingDeletionCount(Note(CONTENT_LOSS, SideText(side)) + (Print(lost) + (OF + (Print(tracked) + rest)))) == 0
  {
    var number := Print(lost) + (OF + (Print(tracked) + rest));
    SideIsSingleSpaced(side);
    NoWordsNoLoss(Note(CONTENT_LOSS, SideText(side)), lost, tracked, rest);
    if side.SandboxWorkspace? { SidesDiffer(LocalRoot, side, number); } else { SidesDiffer(SandboxWorkspace, side, number); }
  }

  lemma NoWordsNoLoss(text: string, lost: nat, tracked: nat, rest: string)
    requires SingleSpacedText(text) && lost <= MAX_INT && tracked <= MAX_INT && rest != [] && !IsDigit(rest[0]) && rest[0] != ' '
    ensures ScanLoss(text, text + (Print(lost) + (OF + (Print(tracked) + rest)))).None?
  {
    var number := OF + (Print(tracked) + rest);
    NumberThenWords(text, lost, number);
    NumberThenWords(OF, tracked, rest);
    NoWords(rest);
  }

  lemma NoWords(rest: string)
    requires rest == [] || rest[0] != ' '
    ensures MatchText(TRACKED, rest).None?
  {
    assert TRACKED[0] == ' ';
  }

  lemma SideIsSingleSpaced(side: LossSide)
    ensures SingleSpacedText(Note(CONTENT_LOSS, SideText(side)))
  {}

  lemma NumberThenWords(text: string, n: nat, rest: string)
    requires SingleSpacedText(text) && n <= MAX_INT && rest != [] && !IsDigit(rest[0])
    ensures MatchText(text, text + (Print(n) + rest)) == Some(Print(n) + rest) && ScanInt(Print(n) + rest) == Some((n, rest))
  {
    PrintStarts(n, rest);
    TextThenWord(text, Print(n) + rest);
    PrintedScans(n, rest);
  }

  /** Matching text needs its first word. */
  lemma {:induction false} FirstWord(word: string, text: string, s: string)
    requires ' ' !in word && MatchText(word + text, s).Some?
    ensures word <= s
    decreases |word|
  {
    if word != [] {
      assert (word + text)[0] == word[0] && word[0] in word && (word + text)[1..] == word[1..] + text;
      FirstWord(word[1..], text, s[1..]);
      assert word == [word[0]] + word[1..] && s == [s[0]] + s[1..];
    }
  }

  /** A note that does not begin as one of a content loss does counts nothing. */
  lemma OtherNotesCountNothing(note: string)
    requires !(CONTENT_LOSS + ":" <= note)
    ensures PendingDeletionCount(note) == 0
  {
    NeedsFirstWord(CONTENT_LOSS + ":", " " + SideText(LocalRoot), note);
    NeedsFirstWord(CONTENT_LOSS + ":", " " + SideText(SandboxWorkspace), note);
    NoteSplits(LocalRoot);
    NoteSplits(SandboxWorkspace);
  }

  lemma NoteSplits(side: LossSide)
    ensures Note(CONTENT_LOSS, SideText(side)) == (CONTENT_LOSS + ":") + (" " + SideText(side))
  {}

  lemma NeedsFirstWord(word: string, text: string, s: string)
    requires ' ' !in word && !(word <= s)
    ensures MatchText(word + text, s).None?
  {
    if MatchText(word + text, s).Some? { FirstWord(word, text, s); }
  }
}
