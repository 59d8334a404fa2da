/** `parse_email_content` for raw e-mail text: a line-by-line pass that picks
    up the Subject and From headers and collects the body after the first
    empty line, with defaults for whatever is missing. */
module EmailParser {
  import opened Text

  /** The dictionary the parser returns. */
  datatype Email = Email(subject: string, sender: string, body: string, kind: string)

  const SubjectKey := "subject:"
  const FromKey := "from:"
  const NoSubject := "No Subject"
  const UnknownSender := "Unknown Sender"

  /** `line.lower().startswith(key)` */
  predicate IsHeader(line: string, key: string) {
    StartsWith(Lower(line), key)
  }

  /** `line[len(key):].strip()` */
  function HeaderValue(line: string, key: string): string
    requires IsHeader(line, key)
  {
    Strip(line[|key|..])
  }

  predicate IsAnyHeader(line: string) {
    IsHeader(line, SubjectKey) || IsHeader(line, FromKey)
  }

  /** The lines of the text, each stripped of surrounding whitespace. */
  function StrippedLines(text: string): (lines: seq<string>)
    ensures |lines| == |SplitOn(text, '\n')|
  {
    var raw := SplitOn(text, '\n');
    seq(|raw|, i requires 0 <= i < |raw| => Strip(raw[i]))
  }

  /** The value of the last line carrying the header `key`, or "" without one. */
  function LastHeader(lines: seq<string>, key: string): string {
    if |lines| == 0 then ""
    else if IsHeader(lines[|lines| - 1], key) then HeaderValue(lines[|lines| - 1], key)
    else LastHeader(lines[..|lines| - 1], key)
  }

  /** Index of the first empty line, or |lines| when there is none. */
  function FirstBlank(lines: seq<string>): (b: nat)
    ensures b <= |lines|
    ensures b < |lines| ==> |lines[b]| == 0
  {
    if |lines| == 0 || |lines[0]| == 0 then 0 else 1 + FirstBlank(lines[1..])
  }

  /** The lines that are neither a Subject nor a From header, in order. */
  function NonHeaders(lines: seq<string>): seq<string> {
    if |lines| == 0 then []
    else if IsAnyHeader(lines[0]) then NonHeaders(lines[1..])
    else [lines[0]] + NonHeaders(lines[1..])
  }

  /** The body lines: every non-header line after the first empty line. */
  function BodyLines(lines: seq<string>): seq<string> {
    if FirstBlank(lines) < |lines| then NonHeaders(lines[FirstBlank(lines) + 1..]) else []
  }

  /** Each line followed by a newline, concatenated. */
  function Unlines(lines: seq<string>): string {
    if |lines| == 0 then ""
    else Unlines(lines[..|lines| - 1]) + lines[|lines| - 1] + "\n"
  }

  /** What the parser returns for the text: the last Subject and From header
      values, the stripped body lines after the first empty line, and the
      defaults "No Subject", "Unknown Sender" and the whole text for whichever
      comes out empty. */
  function ParseEmail(text: string): Email {
    var lines := StrippedLines(text);
    var subject := LastHeader(lines, SubjectKey);
    var sender := LastHeader(lines, FromKey);
    var body := Strip(Unlines(BodyLines(lines)));
    Email(if |subject| == 0 then NoSubject else subject,
          if |sender| == 0 then UnknownSender else sender,
          if |body| == 0 then text else body,
          "email")
  }

  // ---------------------------------------------------------------------------
  // One more line read: how each of the parser's variables moves

  /** A header line is never empty. */
  lemma HeaderNotEmpty(line: string, key: string)
    requires IsHeader(line, key) && |key| > 0
    ensures |line| > 0
  {
    assert |Lower(line)| == |line|;
  }

  /** No line can be both a Subject and a From header. */
  lemma HeadersDisjoint(line: string)
    ensures !(IsHeader(line, SubjectKey) && IsHeader(line, FromKey))
  {
    if IsHeader(line, SubjectKey) {
      assert Lower(line)[0] == 's';
    }
  }

  /** A header line replaces that header's value; other lines leave it. */
  lemma {:induction false} LastHeaderSnoc(lines: seq<string>, line: string, key: string)
    ensures LastHeader(lines + [line], key)
         == if IsHeader(line, key) then HeaderValue(line, key) else LastHeader(lines, key)
  {
    FrontOfSnoc(lines, line);
  }

  /** The first empty line stays where it is; without one, the new line is it
      exactly when it is empty. */
  lemma {:induction false} FirstBlankSnoc(lines: seq<string>, line: string)
    ensures FirstBlank(lines) < |lines| ==> FirstBlank(lines + [line]) == FirstBlank(lines)
    ensures FirstBlank(lines) == |lines| ==>
      FirstBlank(lines + [line]) == if |line| == 0 then |lines| else |lines| + 1
  {
    if |lines| > 0 && |lines[0]| > 0 {
      DropSnoc(lines, line, 1);
      FirstBlankSnoc(lines[1..], line);
    }
  }

  lemma {:induction false} NonHeadersSnoc(lines: seq<string>, line: string)
    ensures IsAnyHeader(line) ==> NonHeaders(lines + [line]) == NonHeaders(lines)
    ensures !IsAnyHeader(line) ==> NonHeaders(lines + [line]) == NonHeaders(lines) + [line]
  {
    if |lines| == 0 {
      assert lines + [line] == [line];
      assert [line][1..] == [];
    } else {
      assert (lines + [line])[0] == lines[0];
      DropSnoc(lines, line, 1);
      NonHeadersSnoc(lines[1..], line);
      if !IsAnyHeader(lines[0]) && !IsAnyHeader(line) {
        Assoc([lines[0]], NonHeaders(lines[1..]), [line]);
      }
    }
  }

  /** Once the body is open, every further non-header line joins it. */
  lemma {:induction false} BodyLinesSnocOpen(lines: seq<string>, line: string)
    requires FirstBlank(lines) < |lines|
    ensures IsAnyHeader(line) ==> BodyLines(lines + [line]) == BodyLines(lines)
    ensures !IsAnyHeader(line) ==> BodyLines(lines + [line]) == BodyLines(lines) + [line]
  {
    var b := FirstBlank(lines);
    FirstBlankSnoc(lines, line);
    DropSnoc(lines, line, b + 1);
    NonHeadersSnoc(lines[b + 1..], line);
  }

  /** Up to and including the first empty line no body line is collected. */
  lemma {:induction false} BodyLinesSnocClosed(lines: seq<string>, line: string)
    requires FirstBlank(lines) == |lines|
    ensures BodyLines(lines + [line]) == []
  {
    FirstBlankSnoc(lines, line);
    if |line| == 0 {
      assert (lines + [line])[|lines| + 1..] == [];
    }
  }

  lemma {:induction false} UnlinesSnoc(lines: seq<string>, line: string)
    ensures Unlines(lines + [line]) == Unlines(lines) + line + "\n"
  {
    FrontOfSnoc(lines, line);
  }

  /** The imperative parser: one pass over the lines with an in-body flag. */
  method ParseEmailContent(emailContent: string) returns (e: Email)
    ensures e == ParseEmail(emailContent)
  {
    var lines := SplitOn(emailContent, '\n');
    ghost var stripped := StrippedLines(emailContent);
    var subject, fromAddr, body := "", "", "";
    var inBody := false;
    for i := 0 to |lines|
      invariant subject == LastHeader(stripped[..i], SubjectKey)
      invariant fromAddr == LastHeader(stripped[..i], FromKey)
      invariant inBody == (FirstBlank(stripped[..i]) < i)
      invariant body == Unlines(BodyLines(stripped[..i]))
    {
      var line := Strip(lines[i]);
      ghost var seen := stripped[..i];
      assert line == stripped[i];
      TakeNext(stripped, i);
      LastHeaderSnoc(seen, line, SubjectKey);
      LastHeaderSnoc(seen, line, FromKey);
      FirstBlankSnoc(seen, line);
      HeadersDisjoint(line);
      if IsHeader(line, SubjectKey) {
        HeaderNotEmpty(line, SubjectKey);
        if inBody { BodyLinesSnocOpen(seen, line); } else { BodyLinesSnocClosed(seen, line); }
        subject := HeaderValue(line, SubjectKey);
      } else if IsHeader(line, FromKey) {
        HeaderNotEmpty(line, FromKey);
        if inBody { BodyLinesSnocOpen(seen, line); } else { BodyLinesSnocClosed(seen, line); }
        fromAddr := HeaderValue(line, FromKey);
      } else if line == "" && !inBody {
        BodyLinesSnocClosed(seen, line);
        inBody := true;
      } else if inBody {
        BodyLinesSnocOpen(seen, line);
        UnlinesSnoc(BodyLines(seen), line);
        body := body + line + "\n";
      } else {
        BodyLinesSnocClosed(seen, line);
      }
    }
    assert stripped[..|lines|] == stripped;
    var strippedBody := Strip(body);
    e := Email(if |subject| == 0 then NoSubject else subject,
               if |fromAddr| == 0 then UnknownSender else fromAddr,
               if |strippedBody| == 0 then emailContent else strippedBody,
               "email");
  }

  // ---------------------------------------------------------------------------
  // Properties of the parse

  /** The last header line wins: later lines without that header do not change it. */
  lemma {:induction false} LastHeaderIsLast(lines: seq<string>, key: string, j: nat)
    requires j < |lines| && IsHeader(lines[j], key)
    requires forall k :: j < k < |lines| ==> !IsHeader(lines[k], key)
    ensures LastHeader(lines, key) == HeaderValue(lines[j], key)
  {
    if j < |lines| - 1 {
      LastHeaderIsLast(lines[..|lines| - 1], key, j);
    }
  }

  /** Without any such header line the value is empty. */
  lemma {:induction false} LastHeaderAbsent(lines: seq<string>, key: string)
    requires forall k :: 0 <= k < |lines| ==> !IsHeader(lines[k], key)
    ensures LastHeader(lines, key) == ""
  {
    if |lines| > 0 {
      LastHeaderAbsent(lines[..|lines| - 1], key);
    }
  }

  /** The subject is the value of the last line starting with "subject:" in any
      case, or "No Subject" when that value is empty. */
  lemma {:induction false} SubjectIsLastHeader(text: string, j: nat)
    requires j < |StrippedLines(text)| && IsHeader(StrippedLines(text)[j], SubjectKey)
    requires forall k :: j < k < |StrippedLines(text)| ==> !IsHeader(StrippedLines(text)[k], SubjectKey)
    ensures var v := HeaderValue(StrippedLines(text)[j], SubjectKey);
      ParseEmail(text).subject == if |v| == 0 then NoSubject else v
  {
    LastHeaderIsLast(StrippedLines(text), SubjectKey, j);
  }

  /** The sender is the value of the last line starting with "from:" in any
      case, or "Unknown Sender" when that value is empty. */
  lemma {:induction false} SenderIsLastHeader(text: string, j: nat)
    requires j < |StrippedLines(text)| && IsHeader(StrippedLines(text)[j], FromKey)
    requires forall k :: j < k < |StrippedLines(text)| ==> !IsHeader(StrippedLines(text)[k], FromKey)
    ensures var v := HeaderValue(StrippedLines(text)[j], FromKey);
      ParseEmail(text).sender == if |v| == 0 then UnknownSender else v
  {
    LastHeaderIsLast(StrippedLines(text), FromKey, j);
  }

  /** Each header falls back to its default when no line carries it, whatever
      the other header does; the kind is "email" for every text. */
  lemma {:induction false} MissingHeadersDefault(text: string)
    ensures (forall k :: 0 <= k < |StrippedLines(text)| ==> !IsHeader(StrippedLines(text)[k], SubjectKey))
      ==> ParseEmail(text).subject == NoSubject
    ensures (forall k :: 0 <= k < |StrippedLines(text)| ==> !IsHeader(StrippedLines(text)[k], FromKey))
      ==> ParseEmail(text).sender == UnknownSender
    ensures ParseEmail(text).kind == "email"
  {
    var lines := StrippedLines(text);
    if forall k :: 0 <= k < |lines| ==> !IsHeader(lines[k], SubjectKey) {
      LastHeaderAbsent(lines, SubjectKey);
    }
    if forall k :: 0 <= k < |lines| ==> !IsHeader(lines[k], FromKey) {
      LastHeaderAbsent(lines, FromKey);
    }
  }

  /** FirstBlank finds the first empty line: the line at its index is empty
      and every line before it is not. */
  lemma {:induction false} FirstBlankIsFirst(lines: seq<string>)
    ensures FirstBlank(lines) < |lines| ==> |lines[FirstBlank(lines)]| == 0
    ensures forall k :: 0 <= k < FirstBlank(lines) ==> |lines[k]| > 0
  {
    if |lines| > 0 && |lines[0]| > 0 {
      FirstBlankIsFirst(lines[1..]);
      forall k | 1 <= k < FirstBlank(lines) ensures |lines[k]| > 0 {
        assert lines[k] == lines[1..][k - 1];
      }
    }
  }

  /** Without an empty line there is no first empty line. */
  lemma {:induction false} FirstBlankNone(lines: seq<string>)
    requires forall k :: 0 <= k < |lines| ==> |lines[k]| > 0
    ensures FirstBlank(lines) == |lines|
  {
    if |lines| > 0 {
      FirstBlankNone(lines[1..]);
    }
  }

  /** Without an empty line there is no body, so the whole text (unstripped)
      stands in for it. */
  lemma {:induction false} NoBlankLineKeepsWholeText(text: string)
    requires forall k :: 0 <= k < |StrippedLines(text)| ==> |StrippedLines(text)[k]| > 0
    ensures ParseEmail(text).body == text
  {
    FirstBlankNone(StrippedLines(text));
  }

  /** Lines that are all empty give nothing but newlines. */
  lemma {:induction false} UnlinesOfEmpty(lines: seq<string>)
    requires forall i :: 0 <= i < |lines| ==> |lines[i]| == 0
    ensures forall k :: 0 <= k < |Unlines(lines)| ==> Unlines(lines)[k] == '\n'
  {
    if |lines| > 0 {
      var front := lines[..|lines| - 1];
      UnlinesOfEmpty(front);
      assert Unlines(lines) == Unlines(front) + "\n";
    }
  }

  /** When every line after the first empty line is a header or empty, the
      body comes out empty and the whole text (unstripped) stands in for it;
      "Subject: x", "", "From: y" is such a text. */
  lemma {:induction false} EmptyBodyKeepsWholeText(text: string)
    requires forall k :: FirstBlank(StrippedLines(text)) < k < |StrippedLines(text)| ==>
      IsAnyHeader(StrippedLines(text)[k]) || |StrippedLines(text)[k]| == 0
    ensures ParseEmail(text).body == text
  {
    var lines := StrippedLines(text);
    var body := BodyLines(lines);
    forall i | 0 <= i < |body| ensures |body[i]| == 0 {
      BodyLinesFollowFirstBlank(lines, i);
    }
    UnlinesOfEmpty(body);
  }

  /** Every line NonHeaders keeps is a non-header line of its input. */
  lemma {:induction false} NonHeadersFrom(lines: seq<string>, i: nat)
    requires i < |NonHeaders(lines)|
    ensures !IsAnyHeader(NonHeaders(lines)[i])
    ensures exists k :: 0 <= k < |lines| && lines[k] == NonHeaders(lines)[i]
  {
    if IsAnyHeader(lines[0]) {
      NonHeadersFrom(lines[1..], i);
      var k :| 0 <= k < |lines[1..]| && lines[1..][k] == NonHeaders(lines[1..])[i];
      assert lines[k + 1] == NonHeaders(lines)[i];
    } else if i == 0 {
      assert lines[0] == NonHeaders(lines)[0];
    } else {
      NonHeadersFrom(lines[1..], i - 1);
      var k :| 0 <= k < |lines[1..]| && lines[1..][k] == NonHeaders(lines[1..])[i - 1];
      assert lines[k + 1] == NonHeaders(lines)[i];
    }
  }

  /** Dropping the header lines distributes over concatenation. */
  lemma {:induction false} NonHeadersAppend(a: seq<string>, b: seq<string>)
    ensures NonHeaders(a + b) == NonHeaders(a) + NonHeaders(b)
  {
    if |a| == 0 {
      assert a + b == b;
    } else {
      DropAppend(a, b);
      NonHeadersAppend(a[1..], b);
      if !IsAnyHeader(a[0]) {
        Assoc([a[0]], NonHeaders(a[1..]), NonHeaders(b));
      }
    }
  }

  /** Every non-header line after the first empty line is in the body, in
      input order: the body is the kept lines before it, then the line, then
      the kept lines after it. */
  lemma {:induction false} BodyLinesCollectAll(lines: seq<string>, k: nat)
    requires FirstBlank(lines) < k < |lines| && !IsAnyHeader(lines[k])
    ensures BodyLines(lines)
         == NonHeaders(lines[FirstBlank(lines) + 1..k]) + [lines[k]] + NonHeaders(lines[k + 1..])
    ensures lines[k] in BodyLines(lines)
  {
    var b := FirstBlank(lines);
    BodyLinesAfterBlank(lines);
    SplitAround(lines, b + 1, k);
    NonHeadersAround(lines[b + 1..k], lines[k], lines[k + 1..]);
  }

  /** With an empty line present, the body is the kept lines after it. */
  lemma {:induction false} BodyLinesAfterBlank(lines: seq<string>)
    requires FirstBlank(lines) < |lines|
    ensures BodyLines(lines) == NonHeaders(lines[FirstBlank(lines) + 1..])
  {
  }

  /** A kept line sits in the kept lines between those kept before and after it. */
  lemma {:induction false} NonHeadersAround(before: seq<string>, line: string, after: seq<string>)
    requires !IsAnyHeader(line)
    ensures NonHeaders(before + ([line] + after)) == NonHeaders(before) + [line] + NonHeaders(after)
    ensures line in NonHeaders(before + ([line] + after))
  {
    NonHeadersAppend(before, [line] + after);
    DropAppend([line], after);
    assert NonHeaders([line] + after) == [line] + NonHeaders(after);
    Assoc(NonHeaders(before), [line], NonHeaders(after));
    assert (NonHeaders(before) + [line] + NonHeaders(after))[|NonHeaders(before)|] == line;
  }

  /** Every body line is a non-header line that comes after the first empty
      line: header lines never reach the body, and lines before the first
      empty line are dropped. */
  lemma {:induction false} BodyLinesFollowFirstBlank(lines: seq<string>, i: nat)
    requires i < |BodyLines(lines)|
    ensures !IsAnyHeader(BodyLines(lines)[i])
    ensures exists k :: FirstBlank(lines) < k < |lines| && lines[k] == BodyLines(lines)[i]
  {
    var b := FirstBlank(lines);
    NonHeadersFrom(lines[b + 1..], i);
    var k :| 0 <= k < |lines[b + 1..]| && lines[b + 1..][k] == BodyLines(lines)[i];
    assert lines[b + 1 + k] == BodyLines(lines)[i];
  }
}
