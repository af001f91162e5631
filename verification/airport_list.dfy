/**
 * The "airport codes" reply: one line per table entry under a fixed header,
 * cut down to the message length the handler allows.
 */
module AirportList {
  import opened Wrappers
  import opened PyStr
  import opened AirportCodes

  const Header: string := "🌍 Коды аэропортов:\n\n"
  const MaxLength: nat := 4000
  const Ellipsis: string := "\n..."
  const LineSeparator: string := " — "

  /** `f"{code} — {name}"` for one entry. */
  function EntryLine(e: Entry): string {
    e.0 + LineSeparator + e.1
  }

  /** The body: every entry's line, joined with newlines, in table order. */
  function Body(t: seq<Entry>): string {
    JoinWith(seq(|t|, i requires 0 <= i < |t| => EntryLine(t[i])), "\n")
  }

  /** `text[:4000] + "\n..."` when the text is longer than 4000 characters. */
  function Truncate(text: string): (r: string)
    ensures |r| <= MaxLength + |Ellipsis|
    ensures |text| <= MaxLength ==> r == text
    ensures |text| > MaxLength ==> |r| == MaxLength + |Ellipsis| && r[..MaxLength] == text[..MaxLength]
  {
    if |text| > MaxLength then text[..MaxLength] + Ellipsis else text
  }

  /** The text `airport_list_handler` answers with. */
  function AirportListText(t: seq<Entry>): string {
    Truncate(Header + Body(t))
  }

  /** Reading a line back: the text before the first separator and the text after it. */
  function SplitLine(line: string): Option<Entry> {
    match FindFrom(line, LineSeparator, 0)
    case None => None
    case Some(i) => Some((line[..i], line[i + |LineSeparator|..]))
  }

  /** A code with no em dash and no newline, and a name with no newline. */
  predicate Printable(e: Entry) {
    '—' !in e.0 && '\n' !in e.0 && '\n' !in e.1
  }

  lemma SplitEntryLine(e: Entry)
    requires '—' !in e.0
    ensures SplitLine(EntryLine(e)) == Some(e)
  {
    var s := EntryLine(e);
    var n := |e.0|;
    assert OccursAt(s, LineSeparator, n) by { assert s[n..n + 3] == LineSeparator; }
    forall j: nat | j < n ensures !OccursAt(s, LineSeparator, j) {
      if j + 3 <= |s| {
        assert s[j..j + 3][1] == s[j + 1];
        if j + 1 < n { assert s[j + 1] == e.0[j + 1]; }
      }
    }
    assert s[..n] == e.0 && s[n + 3..] == e.1;
  }

  /**
   * Untruncated, the text is the header followed by exactly one line per
   * entry, in table order, and each line gives back its code and name.
   */
  lemma {:induction false} BodyLines(t: seq<Entry>)
    requires |t| >= 1
    requires forall i | 0 <= i < |t| :: Printable(t[i])
    ensures |SplitOn(Body(t), '\n')| == |t|
    ensures forall i | 0 <= i < |t| :: SplitLine(SplitOn(Body(t), '\n')[i]) == Some(t[i])
  {
    var lines := seq(|t|, i requires 0 <= i < |t| => EntryLine(t[i]));
    forall k | 0 <= k < |lines| ensures '\n' !in lines[k] {
      assert '\n' != '—' && '\n' != ' ';
      assert lines[k] == t[k].0 + LineSeparator + t[k].1;
    }
    JoinWithSplitOn(lines, '\n');
    forall i | 0 <= i < |t| ensures SplitLine(lines[i]) == Some(t[i]) {
      SplitEntryLine(t[i]);
    }
  }
}
