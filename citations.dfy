/**
 * The citations panel (src/components/chat/citations.tsx): the text the copy
 * button puts on the clipboard, the numbered badges and the toggle shown.
 */
module Citations {
  import opened Strings
  import opened Types

  /** The number shown for the citation at 0-based `index`, on its badge and in the copied text. */
  function Badge(index: nat): (n: nat)
    ensures n >= 1
  {
    index + 1
  }

  /** Badges count from 1, one up per citation, in list order. */
  lemma BadgeNumbering(index: nat)
    ensures Badge(0) == 1
    ensures Badge(index + 1) == Badge(index) + 1
  {
  }

  /** One copied entry: the badge number in brackets, the title, a line break, the uri. */
  function Entry(index: nat, c: Citation): string {
    "[" + NatToString(Badge(index)) + "] " + c.title + "\n" + c.uri
  }

  /** The entries of `cs`, numbered from `Badge(first)` on. */
  function EntriesFrom(cs: seq<Citation>, first: nat): (r: seq<string>)
    ensures |r| == |cs|
  {
    seq(|cs|, i requires 0 <= i < |cs| => Entry(first + i, cs[i]))
  }

  /** `copyCitations`: the entries in input order, joined by a blank line. */
  function CopyText(cs: seq<Citation>): (r: string)
    ensures r == "" <==> cs == []
  {
    Join(EntriesFrom(cs, 0), "\n\n")
  }

  /** The toggle's label: Hide or Show after the panel's state, the number of sources, then "Sources". */
  function ToggleLabel(isOpen: bool, count: nat): string {
    (if isOpen then "Hide" else "Show") + " " + NatToString(count) + " Sources"
  }

  /** The shown names the state, and the number in it reads back as the count. */
  lemma ToggleLabelSpec(isOpen: bool, count: nat)
    ensures var shown := ToggleLabel(isOpen, count);
      var digits := NatToString(count);
      StartsWith(shown, if isOpen then "Hide " else "Show ") &&
      |shown| == 5 + |digits| + 8 &&
      AllDigits(shown[5..5 + |digits|]) && DigitsValue(shown[5..5 + |digits|]) == count &&
      shown[5 + |digits|..] == " Sources"
  {
    var shown := ToggleLabel(isOpen, count);
    var digits := NatToString(count);
    assert shown[5..5 + |digits|] == digits;
    NatToStringValue(count);
  }

  // ---------------------------------------------------------------------
  // Reading the copied text back

  /** A title and a uri without line breaks, and a uri that is not empty. */
  predicate Plain(c: Citation) {
    '\n' !in c.title && '\n' !in c.uri && c.uri != ""
  }

  /** A piece that survives joining by "\n\n" and splitting again: no blank line inside, no line break at its end. */
  ghost predicate Paragraph(p: string) {
    (forall j: nat :: !OccursAt(p, "\n\n", j)) && (p == "" || p[|p| - 1] != '\n')
  }

  lemma {:induction false} JoinSplitParagraphs(parts: seq<string>)
    requires parts != []
    requires forall i :: 0 <= i < |parts| ==> Paragraph(parts[i])
    ensures Split(Join(parts, "\n\n"), "\n\n") == parts
  {
    if |parts| == 1 {
      SplitNone(parts[0], "\n\n");
    } else {
      var head := parts[0];
      var rest := Join(parts[1..], "\n\n");
      var s := head + "\n\n" + rest;
      forall j: nat | j < |head| ensures !OccursAt(s, "\n\n", j) {
        if j + 1 < |head| {
          assert s[j..j + 2] == head[j..j + 2];
          assert !OccursAt(head, "\n\n", j);
        } else {
          assert s[j] == head[|head| - 1];
        }
      }
      SplitAt(head, "\n\n", rest);
      JoinSplitParagraphs(parts[1..]);
    }
  }

  lemma EntryIsParagraph(index: nat, c: Citation)
    requires Plain(c)
    ensures Paragraph(Entry(index, c))
  {
    var digits := NatToString(Badge(index));
    var pre := "[" + digits + "] " + c.title;
    var e := Entry(index, c);
    assert e == pre + "\n" + c.uri;
    assert forall k :: 0 <= k < |pre| ==> pre[k] != '\n' by {
      forall k | 0 <= k < |pre| ensures pre[k] != '\n' {
        if 1 <= k < 1 + |digits| {
          assert pre[k] == digits[k - 1];
          assert IsDigit(digits[k - 1]);
        } else if k >= 3 + |digits| {
          assert pre[k] == c.title[k - 3 - |digits|];
        }
      }
    }
    forall j: nat ensures !OccursAt(e, "\n\n", j) {
      if j + 2 <= |e| {
        assert e[j..j + 2][0] == e[j] && e[j..j + 2][1] == e[j + 1];
      }
    }
    assert e[|e| - 1] == c.uri[|c.uri| - 1];
  }

  /**
   * The copied text holds exactly the numbered entries in input order,
   * separated by blank lines, with no separator before the first or after
   * the last: splitting it on "\n\n" gives the entries back.
   */
  lemma CopyTextSplits(cs: seq<Citation>)
    requires cs != []
    requires forall i :: 0 <= i < |cs| ==> Plain(cs[i])
    ensures Split(CopyText(cs), "\n\n") == EntriesFrom(cs, 0)
    ensures forall i :: 0 <= i < |cs| ==>
      Split(CopyText(cs), "\n\n")[i] == "[" + NatToString(Badge(i)) + "] " + cs[i].title + "\n" + cs[i].uri
  {
    var es := EntriesFrom(cs, 0);
    forall i | 0 <= i < |es| ensures Paragraph(es[i]) {
      EntryIsParagraph(i, cs[i]);
    }
    JoinSplitParagraphs(es);
  }
}
