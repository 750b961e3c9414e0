/** The pure part of the `generatePointsSheet` handler: the spreadsheet id is
    read out of each document URL, helper rows are narrowed to the event,
    the sheet sizes are counted and the engine's results are passed through.
    The fetch of a sheet is a parameter: a function from the spreadsheet id
    (`None` for `undefined`) to the grid it returns, possibly empty. */
module EventsController {
  import opened Sheets
  import opened Sequences
  import opened VerificationEngine

  /** Position of the id in `url.split('/')`. */
  const SheetIdIndex: nat := 5
  /** Column of the event name in a helper row. */
  const EventNameColumn: nat := 6

  /** `s.split(sep)` for a one-character separator: the maximal runs between
      separators, so that `n` separators give `n + 1` parts. */
  function Split(s: string, sep: char): (parts: seq<string>)
    ensures |parts| >= 1
  {
    if |s| == 0 then [""]
    else if s[0] == sep then [""] + Split(s[1..], sep)
    else
      var rest := Split(s[1..], sep);
      [[s[0]] + rest[0]] + rest[1..]
  }

  /** No part of a split contains the separator. */
  lemma {:induction false} SplitPartsSeparatorFree(s: string, sep: char)
    ensures forall i :: 0 <= i < |Split(s, sep)| ==> sep !in Split(s, sep)[i]
  {
    if |s| > 0 {
      SplitPartsSeparatorFree(s[1..], sep);
      if s[0] != sep {
        var rest := Split(s[1..], sep);
        assert sep !in [s[0]] + rest[0];
      }
    }
  }

  /** Joining the parts of a split with the separator gives the string back. */
  lemma {:induction false} JoinSplit(s: string, sep: char)
    ensures Join(Split(s, sep), sep) == s
  {
    if |s| > 0 {
      var rest := Split(s[1..], sep);
      JoinSplit(s[1..], sep);
      if s[0] == sep {
        assert ([""] + rest)[1..] == rest;
        assert s == [sep] + s[1..];
      } else {
        var parts := [[s[0]] + rest[0]] + rest[1..];
        assert parts[1..] == rest[1..];
        assert s == [s[0]] + s[1..];
      }
    }
  }

  /** `parts.join(sep)`: the inverse of `Split`. */
  function Join(parts: seq<string>, sep: char): string
  {
    if |parts| == 0 then ""
    else if |parts| == 1 then parts[0]
    else parts[0] + [sep] + Join(parts[1..], sep)
  }

  /** Splitting a string made of separator-free parts joined by the
      separator gives the parts back. */
  lemma {:induction false} SplitJoin(parts: seq<string>, sep: char)
    requires |parts| >= 1
    requires forall i :: 0 <= i < |parts| ==> sep !in parts[i]
    ensures Split(Join(parts, sep), sep) == parts
  {
    if |parts| == 1 {
      SplitFree(parts[0], sep);
    } else {
      SplitJoin(parts[1..], sep);
      SplitAfter(parts[0], Join(parts[1..], sep), sep);
    }
  }

  /** A separator-free string splits into itself alone. */
  lemma {:induction false} SplitFree(s: string, sep: char)
    requires sep !in s
    ensures Split(s, sep) == [s]
  {
    if |s| > 0 {
      SplitFree(s[1..], sep);
      assert s == [s[0]] + s[1..];
    }
  }

  /** A separator-free prefix followed by a separator becomes the first part. */
  lemma {:induction false} SplitAfter(a: string, b: string, sep: char)
    requires sep !in a
    ensures Split(a + [sep] + b, sep) == [a] + Split(b, sep)
  {
    var s := a + [sep] + b;
    if |a| == 0 {
      assert s[1..] == b;
    } else {
      assert s[1..] == a[1..] + [sep] + b;
      SplitAfter(a[1..], b, sep);
      assert [a[0]] + a[1..] == a;
    }
  }

  /** `url.split('/')[5]`, or `undefined` when the URL has fewer parts. */
  function SpreadsheetId(url: string): (id: Option<string>)
    ensures id.Some? ==> '/' !in id.value
  {
    SplitPartsSeparatorFree(url, '/');
    var parts := Split(url, '/');
    if SheetIdIndex < |parts| then Some(parts[SheetIdIndex]) else None
  }

  /** A split has one part more than the string has separators. */
  lemma {:induction false} SplitCount(s: string, sep: char)
    ensures |Split(s, sep)| == multiset(s)[sep] + 1
  {
    if |s| > 0 {
      SplitCount(s[1..], sep);
      assert s == [s[0]] + s[1..];
    }
  }

  /** The id is `undefined` exactly when the URL holds fewer than five `/`,
      that is, when its split has fewer than six parts. */
  lemma SpreadsheetIdDefined(url: string)
    ensures SpreadsheetId(url).None? <==> multiset(url)['/'] < SheetIdIndex
  {
    SplitCount(url, '/');
  }

  /** Everything after the id: nothing, or a `/` and whatever follows it. */
  lemma SplitId(id: string, tail: string)
    requires '/' !in id
    requires tail == [] || tail[0] == '/'
    ensures Split(id + tail, '/')[0] == id
  {
    if tail == [] {
      assert id + tail == id;
      SplitFree(id, '/');
    } else {
      assert id + tail == id + "/" + tail[1..];
      SplitAfter(id, tail[1..], '/');
    }
  }

  /** Two separator-free parts, each followed by the separator, come out of
      the split as its first two parts. */
  lemma SplitAfterTwo(a0: string, a1: string, rest: string, sep: char)
    requires sep !in a0 && sep !in a1
    ensures Split(a0 + [sep] + (a1 + [sep] + rest), sep) == [a0, a1] + Split(rest, sep)
  {
    SplitAfter(a1, rest, sep);
    SplitAfter(a0, a1 + [sep] + rest, sep);
  }

  /** After five separator-free parts, each followed by `/`, the id is the
      separator-free part that comes next. */
  lemma SpreadsheetIdAfterFive(
    a0: string, a1: string, a2: string, a3: string, a4: string, id: string, tail: string)
    requires '/' !in a0 && '/' !in a1 && '/' !in a2 && '/' !in a3 && '/' !in a4 && '/' !in id
    requires tail == [] || tail[0] == '/'
    ensures SpreadsheetId(a0 + "/" + (a1 + "/" + (a2 + "/" + (a3 + "/" + (a4 + "/" + (id + tail))))))
      == Some(id)
  {
    var rest := id + tail;
    var s4 := a4 + "/" + rest;
    var s2 := a2 + "/" + (a3 + "/" + s4);
    SplitId(id, tail);
    SplitAfter(a4, rest, '/');
    SplitAfterTwo(a2, a3, s4, '/');
    SplitAfterTwo(a0, a1, s2, '/');
    var rs := Split(rest, '/');
    assert Split(a0 + "/" + (a1 + "/" + s2), '/') == [a0, a1] + ([a2, a3] + ([a4] + rs));
  }

  /** The URL prefix that the handler assumes,
      `https://docs.google.com/spreadsheets/d/`, written as its five parts,
      each followed by `/`. */
  const DocsPrefix := "https:" + "/" + "" + "/" + "docs.google.com" + "/" + "spreadsheets" + "/" + "d" + "/"

  /** For the documented URL shape
      `https://docs.google.com/spreadsheets/d/{id}/edit` (the tail after the
      id may be anything that starts with `/`, or nothing) the extracted id is
      `{id}`. */
  lemma DocumentUrlId(id: string, tail: string)
    requires '/' !in id
    requires tail == [] || tail[0] == '/'
    ensures SpreadsheetId(DocsPrefix + id + tail) == Some(id)
  {
    var rest := id + tail;
    assert DocsPrefix + id + tail
      == "https:" + "/" + ("" + "/" + ("docs.google.com" + "/" + ("spreadsheets" + "/" + ("d" + "/" + rest))));
    SpreadsheetIdAfterFive("https:", "", "docs.google.com", "spreadsheets", "d", id, tail);
  }

  /** `helperRows.filter(row => row[6] === eventName)`. */
  function EventHelpers(helperRows: Grid, eventName: Option<string>): (helpers: Grid)
    ensures |helpers| <= |helperRows|
    ensures forall i :: 0 <= i < |helpers| ==> Cell(helpers[i], EventNameColumn) == eventName
  {
    FilterKeeps(helperRows, (row: Row) => Cell(row, EventNameColumn) == eventName);
    Filter(helperRows, (row: Row) => Cell(row, EventNameColumn) == eventName)
  }

  /** The helper grid given to the engine holds exactly the fetched rows
      whose column 6 is the event name, each with its multiplicity, in the
      fetched order. */
  lemma EventHelpersExact(helperRows: Grid, eventName: Option<string>, row: Row)
    ensures IsSubsequence(EventHelpers(helperRows, eventName), helperRows)
    ensures row in EventHelpers(helperRows, eventName) <==>
      row in helperRows && Cell(row, EventNameColumn) == eventName
    ensures multiset(EventHelpers(helperRows, eventName))[row] ==
      if Cell(row, EventNameColumn) == eventName then multiset(helperRows)[row] else 0
  {
    var p := (r: Row) => Cell(r, EventNameColumn) == eventName;
    FilterIsSubsequence(helperRows, p);
    FilterMembership(helperRows, p, row);
    FilterMultiset(helperRows, p, row);
  }

  /** The header row of the helper sheet is filtered like any other row: it
      leads the helper grid when its column 6 is the event name and is gone
      otherwise. */
  lemma HelperHeader(helperRows: Grid, eventName: Option<string>)
    requires |helperRows| > 0
    ensures Cell(helperRows[0], EventNameColumn) == eventName ==>
      EventHelpers(helperRows, eventName) == [helperRows[0]] + EventHelpers(helperRows[1..], eventName)
    ensures Cell(helperRows[0], EventNameColumn) != eventName ==>
      EventHelpers(helperRows, eventName) == EventHelpers(helperRows[1..], eventName)
  {
    assert helperRows == [helperRows[0]] + helperRows[1..];
    FilterCons(helperRows[0], helperRows[1..], (r: Row) => Cell(r, EventNameColumn) == eventName);
  }

  /** The `data` object of the response, without the turnup rate. */
  datatype PointsSheet = PointsSheet(
    signupCount: int,
    feedbackCount: int,
    helperCount: nat,
    participants: Grid,
    stats: Stats)

  /** `generatePointsSheet` from the request body to the response data. */
  method GeneratePointsSheet(
    signupUrl: string, feedbackUrl: string, helperUrl: string,
    eventName: Option<string>, fetch: Option<string> -> Grid)
    returns (data: PointsSheet)
    ensures var signupData := fetch(SpreadsheetId(signupUrl));
      var feedbackData := fetch(SpreadsheetId(feedbackUrl));
      var helperData := EventHelpers(fetch(SpreadsheetId(helperUrl)), eventName);
      && data.signupCount == |signupData| - 1
      && data.feedbackCount == |feedbackData| - 1
      && data.helperCount == |helperData|
      && data.participants == Accepted(Body(signupData), feedbackData, helperData)
      && data.stats.invalidCount == Rejected(Body(signupData), feedbackData, helperData)
      && data.stats.courseTurnup == Tally(data.participants)
  {
    var signupData := fetch(SpreadsheetId(signupUrl));
    var feedbackData := fetch(SpreadsheetId(feedbackUrl));
    var helperData := EventHelpers(fetch(SpreadsheetId(helperUrl)), eventName);

    var signupCount := |signupData| - 1;
    var feedbackCount := |feedbackData| - 1;
    var helperCount := |helperData|;

    var verificationResult := VerifyParticipants(signupData, feedbackData, helperData);

    data := PointsSheet(signupCount, feedbackCount, helperCount,
      verificationResult.participants, verificationResult.stats);
  }
}
