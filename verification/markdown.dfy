/**
 * The Markdown rendering of a findings list (`generate_markdown_report`):
 * a title, a blank line, then either an "Errors" heading followed by one
 * bullet per finding, or a single "no errors" line. Every line ends in a
 * line break.
 *
 * The rendering is given twice: as the line-by-line accumulation the
 * program performs (`GenerateMarkdownReport`) and as a list of lines joined
 * with `Unlines` (`Render`). `SplitLines` and `ReadReport` invert it.
 */
module Markdown {
  import opened Wrappers
  import opened Text

  const Title: string := "# Validation Report"
  const ErrorsHeading: string := "## Errors:"
  const NoErrors: string := "\U{2705} No errors found."

  /** The bullet line of one finding. */
  function Bullet(e: string): string
  {
    "- " + e
  }

  /** Each line followed by a line break, concatenated. */
  function Unlines(lines: seq<string>): string
  {
    if lines == [] then "" else lines[0] + "\n" + Unlines(lines[1..])
  }

  lemma {:induction false} UnlinesAppend(a: seq<string>, b: seq<string>)
    ensures Unlines(a + b) == Unlines(a) + Unlines(b)
  {
    if a == [] {
      assert a + b == b;
    } else {
      assert (a + b)[0] == a[0];
      assert (a + b)[1..] == a[1..] + b;
      UnlinesAppend(a[1..], b);
      calc {
        Unlines(a + b);
        a[0] + "\n" + Unlines(a[1..] + b);
        a[0] + "\n" + (Unlines(a[1..]) + Unlines(b));
        (a[0] + "\n" + Unlines(a[1..])) + Unlines(b);
      }
    }
  }

  /** One bullet per finding, in order. */
  function Bullets(errors: seq<string>): (r: seq<string>)
    ensures |r| == |errors|
    ensures forall k :: 0 <= k < |r| ==> r[k] == Bullet(errors[k])
  {
    if errors == [] then [] else [Bullet(errors[0])] + Bullets(errors[1..])
  }

  /** The first three lines of a report that lists findings. */
  const Preamble: seq<string> := [Title, "", ErrorsHeading]

  /** The lines of the report, without their line breaks. */
  function ReportLines(errors: seq<string>): seq<string>
  {
    if errors == [] then [Title, "", NoErrors]
    else Preamble + Bullets(errors)
  }

  /** The report text: its lines, each followed by a line break. */
  function Render(errors: seq<string>): string
  {
    Unlines(ReportLines(errors))
  }

  /** The report text always starts with the title and a blank line. */
  lemma RenderHead(errors: seq<string>)
    ensures Title + "\n\n" <= Render(errors)
  {
    var lines := ReportLines(errors);
    assert lines == [Title, ""] + lines[2..];
    UnlinesAppend([Title, ""], lines[2..]);
    assert Unlines([""]) == "\n";
    assert Unlines([Title, ""]) == Title + "\n\n";
    PrefixAppend(Title + "\n\n", Unlines(lines[2..]));
  }

  lemma PrefixAppend(a: string, b: string)
    ensures a <= a + b
  {
    assert (a + b)[..|a|] == a;
  }

  /** An empty list gives exactly the title and the "no errors" line. */
  lemma RenderEmpty()
    ensures Render([]) == Title + "\n\n" + NoErrors + "\n"
  {
    assert Unlines([NoErrors]) == NoErrors + "\n";
    assert Unlines(["", NoErrors]) == "\n" + NoErrors + "\n";
  }

  /** The exact text of the report on an empty list. */
  lemma RenderEmptyText()
    ensures Render([]) == "# Validation Report\n\n\U{2705} No errors found.\n"
  {
    RenderEmpty();
    var a := Title + "\n\n";
    var b := NoErrors + "\n";
    assert a == "# Validation Report\n\n";
    assert b == "\U{2705} No errors found.\n";
    assert a + b == "# Validation Report\n\n\U{2705} No errors found.\n";
  }

  /** The text of the preamble with the bullets of the first `i` findings. */
  function Partial(errors: seq<string>, i: nat): string
    requires i <= |errors|
  {
    Unlines(Preamble + Bullets(errors[..i]))
  }

  /** The preamble alone. */
  lemma PartialStart(errors: seq<string>)
    ensures Partial(errors, 0) == Title + "\n\n" + ErrorsHeading + "\n"
  {
    assert Preamble + Bullets(errors[..0]) == Preamble;
    assert Unlines([ErrorsHeading]) == ErrorsHeading + "\n";
    assert Unlines(["", ErrorsHeading]) == "\n" + ErrorsHeading + "\n";
  }

  /** One more finding adds its bullet line. */
  lemma PartialStep(errors: seq<string>, i: nat)
    requires i < |errors|
    ensures Partial(errors, i + 1) == Partial(errors, i) + "- " + errors[i] + "\n"
  {
    assert errors[..i + 1] == errors[..i] + [errors[i]];
    BulletsAppend(errors[..i], [errors[i]]);
    UnlinesAppend(Preamble + Bullets(errors[..i]), [Bullet(errors[i])]);
    assert Preamble + Bullets(errors[..i + 1]) == (Preamble + Bullets(errors[..i])) + [Bullet(errors[i])];
    assert Unlines([Bullet(errors[i])]) == "- " + errors[i] + "\n";
  }

  /** All findings: the whole report. */
  lemma PartialEnd(errors: seq<string>)
    requires errors != []
    ensures Partial(errors, |errors|) == Render(errors)
  {
    assert errors[..|errors|] == errors;
  }

  /**
   * `generate_markdown_report`: the text is built by appending the title,
   * then the heading and one bullet per finding, or the "no errors" line.
   */
  method GenerateMarkdownReport(errors: seq<string>) returns (md: string)
    ensures md == Render(errors)
  {
    md := Title + "\n\n";
    if errors != [] {
      md := md + ErrorsHeading + "\n";
      PartialStart(errors);
      var i := 0;
      while i < |errors|
        invariant 0 <= i <= |errors|
        invariant md == Partial(errors, i)
      {
        PartialStep(errors, i);
        md := md + "- " + errors[i] + "\n";
        i := i + 1;
      }
      PartialEnd(errors);
    } else {
      md := md + NoErrors + "\n";
      RenderEmpty();
    }
  }

  lemma BulletsAppend(a: seq<string>, b: seq<string>)
    ensures Bullets(a + b) == Bullets(a) + Bullets(b)
  {
  }

  /** The index of the first line break in `s`. */
  function FirstNewline(s: string): (i: nat)
    requires !NoNewline(s)
    ensures i < |s| && s[i] == '\n'
    ensures NoNewline(s[..i])
  {
    if s[0] == '\n' then 0
    else
      assert !NoNewline(s[1..]) by {
        var k :| 0 <= k < |s| && s[k] == '\n';
        assert s[1..][k - 1] == '\n';
      }
      var i := 1 + FirstNewline(s[1..]);
      assert s[..i] == [s[0]] + s[1..][..i - 1];
      i
  }

  /**
   * Cuts a text at its line breaks; a final line without a line break is
   * kept, an empty text has no lines.
   */
  function SplitLines(s: string): seq<string>
    decreases |s|
  {
    if s == [] then []
    else if NoNewline(s) then [s]
    else
      var i := FirstNewline(s);
      [s[..i]] + SplitLines(s[i + 1..])
  }

  /** A line without line breaks, then a line break: the text splits right after it. */
  lemma SplitCons(l: string, rest: string)
    requires NoNewline(l)
    ensures SplitLines(l + "\n" + rest) == [l] + SplitLines(rest)
  {
    var s := l + "\n" + rest;
    assert s[|l|] == '\n';
    assert !NoNewline(s);
    var i := FirstNewline(s);
    assert forall j :: 0 <= j < |l| ==> s[j] == l[j];
    assert i <= |l| by {
      assert forall j :: 0 <= j < i ==> s[..i][j] == s[j];
    }
    assert s[..i] == l;
    assert s[i + 1..] == rest;
  }

  /** Lines free of line breaks are recovered from their joined text. */
  lemma {:induction false} SplitUnlines(lines: seq<string>)
    requires forall k :: 0 <= k < |lines| ==> NoNewline(lines[k])
    ensures SplitLines(Unlines(lines)) == lines
  {
    if lines != [] {
      var rest := Unlines(lines[1..]);
      assert Unlines(lines) == lines[0] + "\n" + rest;
      SplitCons(lines[0], rest);
      SplitUnlines(lines[1..]);
      assert lines == [lines[0]] + lines[1..];
    }
  }

  /** Whether `line` is a bullet line, i.e. starts with "- ". */
  predicate IsBullet(line: string)
  {
    |line| >= 2 && line[0] == '-' && line[1] == ' '
  }

  /** The findings listed by the bullet lines, each with its "- " removed. */
  function Unbullet(lines: seq<string>): (r: seq<string>)
    requires forall k :: 0 <= k < |lines| ==> IsBullet(lines[k])
    ensures |r| == |lines|
    ensures forall k :: 0 <= k < |r| ==> lines[k] == Bullet(r[k])
  {
    if lines == [] then []
    else
      assert IsBullet(lines[0]);
      assert lines[0] == "- " + lines[0][2..];
      [lines[0][2..]] + Unbullet(lines[1..])
  }

  /**
   * Reads the findings back from the lines of a report; `None` when the
   * lines are not laid out as a report. Whatever it reads gives back the
   * same lines.
   */
  function ReadLines(lines: seq<string>): (r: Option<seq<string>>)
    ensures r.Some? ==> ReportLines(r.value) == lines
  {
    if |lines| < 3 || lines[0] != Title || lines[1] != "" then None
    else if lines[2] == NoErrors && |lines| == 3 then Some([])
    else if lines[2] == ErrorsHeading && |lines| > 3 && forall k :: 3 <= k < |lines| ==> IsBullet(lines[k]) then
      var errors := Unbullet(lines[3..]);
      assert Bullets(errors) == lines[3..];
      assert lines == Preamble + lines[3..];
      Some(errors)
    else None
  }

  /** Reads the findings back from a report text. */
  function ReadReport(md: string): (r: Option<seq<string>>)
    ensures r.Some? ==> ReportLines(r.value) == SplitLines(md)
  {
    ReadLines(SplitLines(md))
  }

  /**
   * The lines of a report: the title, a blank line, and then either the
   * "no errors" line alone or the heading followed by exactly one bullet per
   * finding in order, never the "no errors" line.
   */
  lemma ReportShape(errors: seq<string>)
    ensures var lines := ReportLines(errors);
      && |lines| >= 3 && lines[0] == Title && lines[1] == ""
      && (errors == [] ==> lines == [Title, "", NoErrors])
      && (errors != [] ==>
            && |lines| == 3 + |errors|
            && lines[2] == ErrorsHeading
            && (forall k :: 3 <= k < |lines| ==> lines[k] == Bullet(errors[k - 3]))
            && NoErrors !in lines)
  {
    var lines := ReportLines(errors);
    if errors != [] {
      forall k | 0 <= k < |lines|
        ensures lines[k] != NoErrors
      {
        if 3 <= k {
          assert lines[k][0] == '-';
        }
      }
    }
  }

  /** Every line of a report made from newline-free findings is free of line breaks. */
  lemma ReportLinesPlain(errors: seq<string>)
    requires forall k :: 0 <= k < |errors| ==> NoNewline(errors[k])
    ensures var lines := ReportLines(errors);
      forall k :: 0 <= k < |lines| ==> NoNewline(lines[k])
  {
    var lines := ReportLines(errors);
    forall k | 0 <= k < |lines|
      ensures NoNewline(lines[k])
    {
      if 3 <= k {
        var e := errors[k - 3];
        assert lines[k] == "- " + e;
        assert forall j :: 2 <= j < |lines[k]| ==> lines[k][j] == e[j - 2];
      }
    }
  }

  /** The rendered text of newline-free findings splits back into the report's lines. */
  lemma RenderSplits(errors: seq<string>)
    requires forall k :: 0 <= k < |errors| ==> NoNewline(errors[k])
    ensures SplitLines(Render(errors)) == ReportLines(errors)
  {
    ReportLinesPlain(errors);
    SplitUnlines(ReportLines(errors));
  }

  /** Reading the lines of a report gives the findings back. */
  lemma ReadReportLines(errors: seq<string>)
    ensures ReadLines(ReportLines(errors)) == Some(errors)
  {
    var lines := ReportLines(errors);
    ReportShape(errors);
    if errors != [] {
      BulletLines(lines, errors);
      var back := Unbullet(lines[3..]);
      forall k | 0 <= k < |back|
        ensures back[k] == errors[k]
      {
        assert Bullet(back[k]) == Bullet(errors[k]);
        assert Bullet(back[k])[2..] == back[k];
      }
      assert back == errors;
      assert lines[2] != NoErrors by {
        assert lines[2][0] != NoErrors[0];
      }
      assert forall k :: 3 <= k < |lines| ==> IsBullet(lines[k]);
    }
  }

  /** Reading a rendered report of newline-free findings gives the findings back. */
  lemma ReadRender(errors: seq<string>)
    requires forall k :: 0 <= k < |errors| ==> NoNewline(errors[k])
    ensures ReadReport(Render(errors)) == Some(errors)
  {
    RenderSplits(errors);
    ReadReportLines(errors);
  }

  /** Lines that are the bullets of some findings are all bullet lines. */
  lemma BulletLines(lines: seq<string>, errors: seq<string>)
    requires |lines| == 3 + |errors|
    requires forall k :: 3 <= k < |lines| ==> lines[k] == Bullet(errors[k - 3])
    ensures forall k :: 3 <= k < |lines| ==> IsBullet(lines[k])
  {
    forall k | 3 <= k < |lines|
      ensures IsBullet(lines[k])
    {
      assert lines[k][0] == '-' && lines[k][1] == ' ';
    }
  }

  /** The number of bullet lines. */
  function CountBullets(lines: seq<string>): (n: nat)
    ensures n <= |lines|
  {
    if lines == [] then 0 else (if IsBullet(lines[0]) then 1 else 0) + CountBullets(lines[1..])
  }

  /** A report has exactly one bullet line per finding. */
  lemma ReportBullets(errors: seq<string>)
    ensures CountBullets(ReportLines(errors)) == |errors|
  {
    var lines := ReportLines(errors);
    ReportShape(errors);
    assert !IsBullet(Title) && !IsBullet("") && !IsBullet(NoErrors) && !IsBullet(ErrorsHeading);
    assert CountBullets(lines) == CountBullets(lines[1..]);
    assert CountBullets(lines[1..]) == CountBullets(lines[2..]) by {
      assert lines[1..][1..] == lines[2..];
    }
    assert CountBullets(lines[2..]) == CountBullets(lines[3..]) by {
      assert lines[2..][1..] == lines[3..];
    }
    if errors != [] {
      BulletLines(lines, errors);
      AllBullets(lines[3..]);
    }
  }

  /** The rendered text of newline-free findings has one bullet line per finding. */
  lemma BulletCount(errors: seq<string>)
    requires forall k :: 0 <= k < |errors| ==> NoNewline(errors[k])
    ensures CountBullets(SplitLines(Render(errors))) == |errors|
  {
    RenderSplits(errors);
    ReportBullets(errors);
  }

  lemma {:induction false} AllBullets(lines: seq<string>)
    requires forall k :: 0 <= k < |lines| ==> IsBullet(lines[k])
    ensures CountBullets(lines) == |lines|
  {
    if lines != [] {
      AllBullets(lines[1..]);
    }
  }
}
