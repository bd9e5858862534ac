/** `formatMessage`: the notification text for a list of sessions. */
module Message {
  import opened Sessions
  import opened Text

  /** The five lines describing one session, in the order the template
      literal writes them. */
  function Lines(x: Session): seq<string>
  {
    [ "Center : " + x.name,
      "Address : " + x.address,
      "Available Capacity : " + Decimal(x.available_capacity),
      "Age Limit : " + Decimal(x.min_age_limit),
      "Vaccine : " + x.vaccine ]
  }

  /** The template literal applied to one session: its five lines with a
      line break between neighbours. */
  function Block(x: Session): (b: string)
  {
    Join(Lines(x), "\n")
  }

  /** `data.map(...)` with the template: one block per session. */
  function Blocks(s: seq<Session>): (bs: seq<string>)
    ensures |bs| == |s|
    ensures forall i :: 0 <= i < |s| ==> bs[i] == Block(s[i])
  {
    seq(|s|, i requires 0 <= i < |s| => Block(s[i]))
  }

  /** The message for a list of sessions: one block per session, in order,
      separated by a blank line. The message is empty exactly when the list
      is, which is what lets the sender treat an empty diff as "nothing to
      send". */
  function Format(s: seq<Session>): (m: string)
    ensures m == "" <==> s == []
  {
    var bs := Blocks(s);
    assert |bs| > 0 ==> |Join(bs, "\n\n")| > 0 by {
      if |bs| > 0 {
        JoinLength(bs, "\n\n");
        JoinLength(Lines(s[0]), "\n");
      }
    }
    Join(bs, "\n\n")
  }

  lemma JoinLength(parts: seq<string>, sep: string)
    requires |parts| > 0
    ensures |Join(parts, sep)| >= |parts[0]|
  {
  }

  /** The text as lines: the five lines of each session, with one empty
      line between consecutive sessions. */
  function Layout(s: seq<Session>): (ls: seq<string>)
    requires |s| > 0
    ensures |ls| == 6 * |s| - 1
  {
    if |s| == 1 then Lines(s[0]) else Lines(s[0]) + [""] + Layout(s[1..])
  }

  /** A trailing empty part is a trailing separator. */
  lemma JoinEmptyEnd(a: seq<string>, sep: string)
    requires |a| > 0
    ensures Join(a + [""], sep) == Join(a, sep) + sep
  {
    JoinAppend(a, [""], sep);
    assert Join([""], sep) == "";
  }

  /** An empty part between two groups of parts is a doubled separator
      between their joins: a blank line between two groups of lines. */
  lemma JoinAroundEmpty(a: seq<string>, b: seq<string>, sep: string)
    requires |a| > 0 && |b| > 0
    ensures Join(a + [""] + b, sep) == Join(a, sep) + (sep + sep) + Join(b, sep)
  {
    JoinEmptyEnd(a, sep);
    JoinAppend(a + [""], b, sep);
    ConcatAssoc(Join(a, sep), sep, sep, Join(b, sep));
  }

  lemma ConcatAssoc(h: string, x: string, y: string, t: string)
    ensures (h + x) + y + t == h + (x + y) + t
  {
  }

  lemma FormatCons(s: seq<Session>)
    requires |s| > 1
    ensures Format(s) == Block(s[0]) + "\n\n" + Format(s[1..])
  {
    var bs := Blocks(s);
    assert bs[0] == Block(s[0]);
    assert bs[1..] == Blocks(s[1..]);
  }

  /** The message is the layout's lines joined by newlines. */
  lemma {:induction false} FormatIsLayout(s: seq<Session>)
    requires |s| > 0
    ensures Format(s) == Join(Layout(s), "\n")
  {
    if |s| == 1 {
      assert Blocks(s) == [Block(s[0])];
    } else {
      FormatIsLayout(s[1..]);
      FormatCons(s);
      JoinAroundEmpty(Lines(s[0]), Layout(s[1..]), "\n");
      assert "\n" + "\n" == "\n\n";
    }
  }

  /** A session whose text fields hold no line break. */
  predicate SingleLine(x: Session)
  {
    '\n' !in x.name && '\n' !in x.address && '\n' !in x.vaccine
  }

  lemma NoBreakInDecimal(n: int)
    ensures '\n' !in Decimal(n)
  {
  }

  lemma {:induction false} LayoutSingleLines(s: seq<Session>)
    requires |s| > 0
    requires forall i :: 0 <= i < |s| ==> SingleLine(s[i])
    ensures forall k :: 0 <= k < |Layout(s)| ==> '\n' !in Layout(s)[k]
  {
    NoBreakInDecimal(s[0].available_capacity);
    NoBreakInDecimal(s[0].min_age_limit);
    assert SingleLine(s[0]);
    var l := Lines(s[0]);
    assert forall k :: 0 <= k < |l| ==> '\n' !in l[k];
    if |s| > 1 {
      LayoutSingleLines(s[1..]);
    }
  }

  /** Reading the message back line by line gives each session's five
      lines in input order, sessions separated by one empty line, as long
      as no text field holds a line break of its own. */
  lemma FormatLines(s: seq<Session>)
    requires |s| > 0
    requires forall i :: 0 <= i < |s| ==> SingleLine(s[i])
    ensures Split(Format(s), '\n') == Layout(s)
    ensures Occurrences(Format(s), '\n') == 6 * |s| - 2
  {
    FormatIsLayout(s);
    LayoutSingleLines(s);
    SplitJoin(Layout(s), '\n');
    assert "\n" == ['\n'];
  }
}
