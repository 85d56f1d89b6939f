/**
 * The questionnaire transforms (pkg/utils/jsons.go): the whitespace
 * normalisation of names, the upper-cased full name, the texts built from
 * name changes and education, and the lists of workplaces and affiliations
 * built block by block. Reading and decoding the questionnaire file is not
 * modelled; a Person here is the decoded value.
 */
module Questionnaire {
  import opened GoStd

  // ------------------------------------------------------------ whitespace

  /** The RE2 class `\s`: tab, newline, form feed, carriage return and space, and nothing else. */
  predicate IsReSpace(c: char)
  {
    c == '\t' || c == '\n' || c == '\U{C}' || c == '\r' || c == ' '
  }

  /** The leading run of `\s` dropped. */
  function DropRun(s: string): (r: string)
    ensures |r| <= |s| && r == s[|s| - |r|..]
    ensures s != [] && IsReSpace(s[0]) ==> |r| < |s|
    ensures r == [] || !IsReSpace(r[0])
    ensures forall i :: 0 <= i < |s| - |r| ==> IsReSpace(s[i])
  {
    if s != [] && IsReSpace(s[0]) then DropRun(s[1..]) else s
  }

  /** No `\s` other than a single space, and no two of them in a row. */
  predicate Collapsed(s: string)
  {
    forall i :: 0 <= i < |s| && IsReSpace(s[i]) ==> s[i] == ' ' && (i + 1 < |s| ==> !IsReSpace(s[i + 1]))
  }

  /**
   * ReplaceAllString of `\s+` with " ": every maximal run of `\s` becomes
   * one space. The first and last characters survive when they are not
   * `\s`.
   */
  function Collapse(s: string): (r: string)
    ensures Collapsed(r)
    ensures r == [] <==> s == []
    ensures s != [] && !IsReSpace(s[0]) ==> r[0] == s[0]
    ensures s != [] && !IsReSpace(s[|s| - 1]) ==> r[|r| - 1] == s[|s| - 1]
    decreases |s|
  {
    if s == [] then []
    else if IsReSpace(s[0]) then
      var rest := DropRun(s);
      assert rest != [] ==> rest[|rest| - 1] == s[|s| - 1];
      " " + Collapse(rest)
    else [s[0]] + Collapse(s[1..])
  }

  /** A suffix of a collapsed string is collapsed. */
  lemma CollapsedTail(s: string)
    requires s != [] && Collapsed(s)
    ensures Collapsed(s[1..])
  {
    forall i | 0 <= i < |s[1..]| && IsReSpace(s[1..][i])
      ensures s[1..][i] == ' ' && (i + 1 < |s[1..]| ==> !IsReSpace(s[1..][i + 1]))
    {
      assert s[1..][i] == s[i + 1];
      assert i + 1 < |s[1..]| ==> s[1..][i + 1] == s[i + 2];
    }
  }

  /** A collapsed string that starts with `\s` starts with one space and nothing more of `\s`. */
  lemma CollapsedHead(s: string)
    requires s != [] && Collapsed(s) && IsReSpace(s[0])
    ensures s[0] == ' ' && (|s| == 1 || !IsReSpace(s[1]))
  {
  }

  /** A string already collapsed is left as it is. */
  lemma {:induction false} CollapseFixed(s: string)
    requires Collapsed(s)
    ensures Collapse(s) == s
    decreases |s|
  {
    if s != [] {
      CollapsedTail(s);
      CollapseFixed(s[1..]);
      if IsReSpace(s[0]) {
        CollapsedHead(s);
        assert DropRun(s[1..]) == s[1..];
        assert DropRun(s) == s[1..];
        assert Collapse(s) == " " + Collapse(s[1..]);
      } else {
        assert Collapse(s) == [s[0]] + Collapse(s[1..]);
      }
      assert s == [s[0]] + s[1..];
    }
  }

  /** A run of `\s` followed by text that does not start with `\s` is dropped whole. */
  lemma {:induction false} DropRunSpaces(w: string, b: string)
    requires forall i :: 0 <= i < |w| ==> IsReSpace(w[i])
    requires b == [] || !IsReSpace(b[0])
    ensures DropRun(w + b) == b
  {
    if w == [] {
      assert w + b == b;
    } else {
      assert (w + b)[0] == w[0] && (w + b)[1..] == w[1..] + b;
      DropRunSpaces(w[1..], b);
    }
  }

  /** The leading run of a string that does not end in `\s` lies inside it, whatever follows. */
  lemma {:induction false} DropRunAppend(a: string, t: string)
    requires a != [] && !IsReSpace(a[|a| - 1])
    ensures DropRun(a + t) == DropRun(a) + t
  {
    assert (a + t)[0] == a[0];
    if IsReSpace(a[0]) {
      assert (a + t)[1..] == a[1..] + t;
      DropRunAppend(a[1..], t);
    }
  }

  /**
   * A run of `\s` between two texts that do not border on `\s` becomes
   * exactly one space, and each text is collapsed on its own.
   */
  lemma {:induction false} CollapseRun(a: string, w: string, b: string)
    requires w != [] && forall i :: 0 <= i < |w| ==> IsReSpace(w[i])
    requires a == [] || !IsReSpace(a[|a| - 1])
    requires b == [] || !IsReSpace(b[0])
    ensures Collapse(a + w + b) == Collapse(a) + " " + Collapse(b)
    decreases |a|, 1
  {
    if a == [] {
      assert a + w + b == w + b;
      CollapseRunFirst(w, b);
      EmptyJoin(Collapse(a), Collapse(b));
    } else if IsReSpace(a[0]) {
      CollapseRunSpace(a, w, b);
    } else {
      CollapseRunText(a, w, b);
    }
  }

  /** CollapseRun with nothing before the run. */
  lemma CollapseRunFirst(w: string, b: string)
    requires w != [] && forall i :: 0 <= i < |w| ==> IsReSpace(w[i])
    requires b == [] || !IsReSpace(b[0])
    ensures Collapse(w + b) == " " + Collapse(b)
  {
    var t := w + b;
    assert t[0] == w[0];
    CollapseSpaceHead(t);
    DropRunSpaces(w, b);
  }

  /** CollapseRun when the first text starts with a run of its own. */
  lemma {:induction false} CollapseRunSpace(a: string, w: string, b: string)
    requires w != [] && forall i :: 0 <= i < |w| ==> IsReSpace(w[i])
    requires a != [] && IsReSpace(a[0]) && !IsReSpace(a[|a| - 1])
    requires b == [] || !IsReSpace(b[0])
    ensures Collapse(a + w + b) == Collapse(a) + " " + Collapse(b)
    decreases |a|, 0
  {
    var rest := DropRun(a);
    DropRunKeepsLast(a);
    DropRunBefore(a, w, b);
    CollapseSpaceHead(a + w + b);
    CollapseSpaceHead(a);
    CollapseRun(rest, w, b);
    var x, y := Collapse(rest), Collapse(b);
    assert Collapse(a + w + b) == " " + (x + " " + y);
    Associative(" ", x, y);
  }

  /** DropRunAppend for a text followed by two more. */
  lemma DropRunBefore(a: string, w: string, b: string)
    requires a != [] && !IsReSpace(a[|a| - 1])
    ensures (a + w + b)[0] == a[0] && DropRun(a + w + b) == DropRun(a) + w + b
  {
    assert a + w + b == a + (w + b);
    DropRunAppend(a, w + b);
    assert DropRun(a) + (w + b) == DropRun(a) + w + b;
  }

  /** A string that does not end in `\s` keeps its last character after its leading run is dropped. */
  lemma DropRunKeepsLast(a: string)
    requires a != [] && !IsReSpace(a[|a| - 1])
    ensures DropRun(a) != [] && DropRun(a)[|DropRun(a)| - 1] == a[|a| - 1]
  {
  }

  /** A string starting with `\s` collapses to one space and the collapse of what follows its run. */
  lemma CollapseSpaceHead(t: string)
    requires t != [] && IsReSpace(t[0])
    ensures Collapse(t) == " " + Collapse(DropRun(t))
  {
  }

  /** CollapseRun when the first text starts with a character outside `\s`. */
  lemma {:induction false} CollapseRunText(a: string, w: string, b: string)
    requires w != [] && forall i :: 0 <= i < |w| ==> IsReSpace(w[i])
    requires a != [] && !IsReSpace(a[0]) && !IsReSpace(a[|a| - 1])
    requires b == [] || !IsReSpace(b[0])
    ensures Collapse(a + w + b) == Collapse(a) + " " + Collapse(b)
    decreases |a|, 0
  {
    var t := a + w + b;
    assert t[0] == a[0] && t[1..] == a[1..] + w + b;
    CollapseRun(a[1..], w, b);
    var x, y := Collapse(a[1..]), Collapse(b);
    assert Collapse(a) == [a[0]] + x;
    assert Collapse(t) == [a[0]] + (x + " " + y);
    Associative([a[0]], x, y);
  }

  /** Joining an empty piece leaves the space and what follows it. */
  lemma EmptyJoin(e: string, y: string)
    requires e == []
    ensures e + " " + y == " " + y
  {
  }

  /** Regrouping a leading piece around the joining space. */
  lemma Associative(p: string, x: string, y: string)
    ensures p + (x + " " + y) == (p + x) + " " + y
  {
  }

  /** The characters of `s` that are not unicode.IsSpace, in order. */
  function NonSpace(s: string): string
  {
    if s == [] then [] else (if IsSpace(s[0]) then [] else [s[0]]) + NonSpace(s[1..])
  }

  lemma {:induction false} NonSpaceAppend(a: string, b: string)
    ensures NonSpace(a + b) == NonSpace(a) + NonSpace(b)
  {
    if a == [] {
      assert a + b == b;
    } else {
      assert (a + b)[1..] == a[1..] + b;
      NonSpaceAppend(a[1..], b);
    }
  }

  lemma {:induction false} NonSpaceDropRun(s: string)
    ensures NonSpace(DropRun(s)) == NonSpace(s)
  {
    if s != [] && IsReSpace(s[0]) {
      NonSpaceDropRun(s[1..]);
    }
  }

  /** Collapsing only rewrites spaces: the other characters stay, in order. */
  lemma {:induction false} NonSpaceCollapse(s: string)
    ensures NonSpace(Collapse(s)) == NonSpace(s)
    decreases |s|
  {
    if s != [] {
      if IsReSpace(s[0]) {
        NonSpaceCollapse(DropRun(s));
        NonSpaceDropRun(s);
        assert NonSpace(s) == NonSpace(s[1..]);
        assert DropRun(s) == DropRun(s[1..]);
        NonSpaceDropRun(s[1..]);
        assert (" " + Collapse(DropRun(s)))[1..] == Collapse(DropRun(s));
      } else {
        NonSpaceCollapse(s[1..]);
        assert ([s[0]] + Collapse(s[1..]))[1..] == Collapse(s[1..]);
      }
    }
  }

  /** Trimming only removes spaces. */
  lemma {:induction false} NonSpaceTrimLeft(s: string)
    ensures NonSpace(TrimLeftSpace(s)) == NonSpace(s)
  {
    if s != [] && IsSpace(s[0]) {
      NonSpaceTrimLeft(s[1..]);
    }
  }

  lemma {:induction false} NonSpaceTrimRight(s: string)
    ensures NonSpace(TrimRightSpace(s)) == NonSpace(s)
  {
    if s != [] && IsSpace(s[|s| - 1]) {
      var init := s[..|s| - 1];
      NonSpaceTrimRight(init);
      assert s == init + [s[|s| - 1]];
      NonSpaceAppend(init, [s[|s| - 1]]);
      assert NonSpace([s[|s| - 1]]) == [];
    }
  }

  /** Nothing but Unicode spaces. */
  predicate AllSpace(s: string)
  {
    forall i :: 0 <= i < |s| ==> IsSpace(s[i])
  }

  /** TrimSpace leaves nothing exactly when the string is all spaces. */
  lemma TrimSpaceEmpty(s: string)
    ensures TrimSpace(s) == [] <==> AllSpace(s)
  {
    var r := TrimRightSpace(s);
    if r != [] {
      assert !IsSpace(s[|r| - 1]);
    }
  }

  /** Spaces on both sides of a join: each side is all spaces. */
  lemma AllSpaceAppend(a: string, b: string)
    ensures AllSpace(a + b) <==> AllSpace(a) && AllSpace(b)
  {
    if AllSpace(a) && AllSpace(b) {
      forall i | 0 <= i < |a + b| ensures IsSpace((a + b)[i]) {
        if i >= |a| {
          assert (a + b)[i] == b[i - |a|];
        }
      }
    }
    if AllSpace(a + b) {
      forall i | 0 <= i < |a| ensures IsSpace(a[i]) {
        assert (a + b)[i] == a[i];
      }
      forall i | 0 <= i < |b| ensures IsSpace(b[i]) {
        assert (a + b)[|a| + i] == b[i];
      }
    }
  }

  /** "Last First Mid" is all spaces exactly when each of the three names is. */
  lemma AllSpaceName(last: string, first: string, mid: string)
    ensures AllSpace(last + " " + first + " " + mid) <==> AllSpace(last) && AllSpace(first) && AllSpace(mid)
  {
    assert AllSpace(" ") by {
      assert IsSpace(" "[0]);
    }
    AllSpaceAppend(last + " " + first + " ", mid);
    AllSpaceAppend(last + " " + first, " ");
    AllSpaceAppend(last + " ", first);
    AllSpaceAppend(last, " ");
  }

  /** trimmString: strings.TrimSpace, then every run of `\s` replaced by one space. Only a value of spaces alone gives "". */
  function TrimString(value: string): (r: string)
    ensures r == [] <==> AllSpace(value)
  {
    TrimSpaceEmpty(value);
    Collapse(TrimSpace(value))
  }

  /** A trimmed string neither starts nor ends with a space, and its `\s` are single spaces. */
  predicate Trimmed(s: string)
  {
    (s == [] || (!IsSpace(s[0]) && !IsSpace(s[|s| - 1]))) && Collapsed(s)
  }

  /** trimmString's result is trimmed. */
  lemma TrimStringTrimmed(value: string)
    ensures Trimmed(TrimString(value))
  {
    var t := TrimSpace(value);
    var x := TrimRightSpace(value);
    assert t != [] ==> t[|t| - 1] == x[|x| - 1];
  }

  /** trimmString keeps every character that is not a space, in order. */
  lemma TrimStringKeepsText(value: string)
    ensures NonSpace(TrimString(value)) == NonSpace(value)
  {
    NonSpaceTrimRight(value);
    NonSpaceTrimLeft(TrimRightSpace(value));
    NonSpaceCollapse(TrimSpace(value));
  }

  /** A trimmed string is its own trimmString. */
  lemma TrimStringOfTrimmed(s: string)
    requires Trimmed(s)
    ensures TrimString(s) == s
  {
    assert TrimRightSpace(s) == s;
    assert TrimLeftSpace(s) == s;
    CollapseFixed(s);
  }

  /** trimmString is idempotent. */
  lemma TrimStringIdempotent(value: string)
    ensures TrimString(TrimString(value)) == TrimString(value)
  {
    TrimStringTrimmed(value);
    TrimStringOfTrimmed(TrimString(value));
  }

  /** A trailing space makes no difference. */
  lemma TrimStringTrailingSpace(value: string)
    ensures TrimString(value + " ") == TrimString(value)
  {
    assert (value + " ")[..|value|] == value;
    assert TrimRightSpace(value + " ") == TrimRightSpace(value);
  }

  /** A text with no space at either end is kept by strings.TrimSpace. */
  lemma TrimSpaceKeeps(s: string)
    requires s == [] || (!IsSpace(s[0]) && !IsSpace(s[|s| - 1]))
    ensures TrimSpace(s) == s
  {
  }

  /**
   * trimmString between two words: a run of `\s` between two texts without
   * spaces at their ends becomes exactly one space, and each text is
   * normalised on its own.
   */
  lemma TrimStringRun(a: string, w: string, b: string)
    requires a != [] && !IsSpace(a[0]) && !IsSpace(a[|a| - 1])
    requires b != [] && !IsSpace(b[0]) && !IsSpace(b[|b| - 1])
    requires w != [] && forall i :: 0 <= i < |w| ==> IsReSpace(w[i])
    ensures TrimString(a + w + b) == TrimString(a) + " " + TrimString(b)
  {
    var s := a + w + b;
    assert s[0] == a[0] && s[|s| - 1] == b[|b| - 1];
    TrimSpaceKeeps(s);
    TrimSpaceKeeps(a);
    TrimSpaceKeeps(b);
    CollapseRun(a, w, b);
  }

  // ------------------------------------------------------------- full name

  datatype NameChange = NameChange(
    reason: string, firstNameBeforeChange: string, lastNameBeforeChange: string,
    hasNoMidNameBeforeChange: bool, yearOfChange: int, nameChangeDocument: string)

  datatype Education = Education(
    educationType: string, institutionName: string, beginYear: int, endYear: int, specialty: string)

  datatype Experience = Experience(
    beginDate: string, endDate: string, currentJob: bool, name: string, address: string,
    phone: string, activityType: string, position: string,
    isPositionMatchEmploymentContract: bool, employmentContractPosition: string, fireReason: string)

  datatype Organization = Organization(view: string, inn: string, orgType: string, name: string, position: string)

  /** The decoded questionnaire, with the fields the transforms read. */
  datatype Person = Person(
    lastName: string, firstName: string, midName: string,
    hasNameChanged: bool, nameWasChanged: seq<NameChange>,
    education: seq<Education>,
    experience: seq<Experience>,
    hasPublicOfficeOrganizations: bool, publicOfficeOrganizations: seq<Organization>,
    hasStateOrganizations: bool, stateOrganizations: seq<Organization>,
    hasRelatedPersonsOrganizations: bool, relatedPersonsOrganizations: seq<Organization>,
    hasMtsRelatedPersonsOrganizations: bool, mtsRelatedPersonsOrganizations: seq<Organization>,
    hasOrganizations: bool, organizations: seq<Organization>)

  /** parseFullname: "Last First Mid", trimmed and upper-cased. */
  function ParseFullname(p: Person): (r: string)
    ensures r == [] <==> AllSpace(p.lastName) && AllSpace(p.firstName) && AllSpace(p.midName)
  {
    AllSpaceName(p.lastName, p.firstName, p.midName);
    UpperString(TrimString(p.lastName + " " + p.firstName + " " + p.midName))
  }

  /** Upper-casing neither makes nor removes a space. */
  lemma UpperRuneSpaces(c: char)
    ensures IsSpace(UpperRune(c)) <==> IsSpace(c)
    ensures IsReSpace(UpperRune(c)) <==> IsReSpace(c)
    ensures IsReSpace(c) ==> UpperRune(c) == c
  {
  }

  /** Upper-casing a trimmed string leaves it trimmed. */
  lemma UpperKeepsTrimmed(t: string)
    requires Trimmed(t)
    ensures Trimmed(UpperString(t))
  {
    var r := UpperString(t);
    if r != [] {
      UpperRuneSpaces(t[0]);
      UpperRuneSpaces(t[|t| - 1]);
    }
    forall i | 0 <= i < |r| && IsReSpace(r[i])
      ensures r[i] == ' ' && (i + 1 < |r| ==> !IsReSpace(r[i + 1]))
    {
      UpperRuneSpaces(t[i]);
      if i + 1 < |r| {
        UpperRuneSpaces(t[i + 1]);
      }
    }
  }

  /** The full name is trimmed: no space at either end, single spaces inside. */
  lemma ParseFullnameTrimmed(p: Person)
    ensures Trimmed(ParseFullname(p))
  {
    var name := p.lastName + " " + p.firstName + " " + p.midName;
    TrimStringTrimmed(name);
    UpperKeepsTrimmed(TrimString(name));
  }

  /** Without a middle name the full name is that of "Last First": no trailing space is left. */
  lemma ParseFullnameNoMiddle(p: Person)
    requires p.midName == ""
    ensures ParseFullname(p) == UpperString(TrimString(p.lastName + " " + p.firstName))
  {
    assert p.lastName + " " + p.firstName + " " + p.midName == (p.lastName + " " + p.firstName) + " ";
    TrimStringTrailingSpace(p.lastName + " " + p.firstName);
  }

  // ---------------------------------------------------------- entry texts

  /** One "%s - %s %d %s, %s" entry for a name change. */
  function PreviousEntry(c: NameChange): string
  {
    c.firstNameBeforeChange + " - " + c.lastNameBeforeChange + " " + FormatInt(c.yearOfChange) + " "
      + c.nameChangeDocument + ", " + c.reason
  }

  /** One entry per item, in order. */
  function Entries<T>(items: seq<T>, entry: T -> string): seq<string>
  {
    seq(|items|, i requires 0 <= i < |items| => entry(items[i]))
  }

  lemma EntriesSnoc<T>(items: seq<T>, i: nat, entry: T -> string)
    requires i < |items|
    ensures Entries(items[..i + 1], entry) == Entries(items[..i], entry) + [entry(items[i])]
  {
    assert items[..i + 1][i] == items[i];
  }

  lemma EntriesAppend<T>(a: seq<T>, b: seq<T>, entry: T -> string)
    ensures Entries(a + b, entry) == Entries(a, entry) + Entries(b, entry)
  {
  }

  /** The entries of the name changes, one each, in order. */
  function PreviousEntries(changes: seq<NameChange>): seq<string>
  {
    Entries(changes, PreviousEntry)
  }

  /** What parsePrevious returns: the entries back to back, or "" when no change is declared. */
  function PreviousText(p: Person): string
  {
    if p.hasNameChanged then Concat(PreviousEntries(p.nameWasChanged)) else ""
  }

  lemma {:induction false} ConcatAppend(a: seq<string>, b: seq<string>)
    ensures Concat(a + b) == Concat(a) + Concat(b)
  {
    if a == [] {
      assert a + b == b;
    } else {
      assert (a + b)[1..] == a[1..] + b;
      ConcatAppend(a[1..], b);
    }
  }

  /** With changes declared, the text of a list of changes is the texts of its parts back to back. */
  lemma PreviousTextAppend(p: Person, a: seq<NameChange>, b: seq<NameChange>)
    requires p.hasNameChanged
    ensures PreviousText(p.(nameWasChanged := a + b)) ==
      PreviousText(p.(nameWasChanged := a)) + PreviousText(p.(nameWasChanged := b))
  {
    EntriesAppend(a, b, PreviousEntry);
    ConcatAppend(PreviousEntries(a), PreviousEntries(b));
  }

  /** A single declared change gives exactly its entry; none declared gives "". */
  lemma PreviousTextSingle(p: Person, c: NameChange)
    ensures PreviousText(p.(hasNameChanged := true, nameWasChanged := [c])) == PreviousEntry(c)
    ensures PreviousText(p.(hasNameChanged := false)) == ""
  {
    assert PreviousEntries([c]) == [PreviousEntry(c)];
    assert Concat([PreviousEntry(c)]) == PreviousEntry(c) + Concat([]);
  }

  /** parsePrevious, appending one entry per change. */
  method ParsePrevious(p: Person) returns (text: string)
    ensures text == PreviousText(p)
  {
    var previous: seq<string> := [];
    if p.hasNameChanged {
      var i := 0;
      while i < |p.nameWasChanged|
        invariant 0 <= i <= |p.nameWasChanged|
        invariant previous == PreviousEntries(p.nameWasChanged[..i])
      {
        EntriesSnoc(p.nameWasChanged, i, PreviousEntry);
        previous := previous + [PreviousEntry(p.nameWasChanged[i])];
        i := i + 1;
      }
      assert p.nameWasChanged[..i] == p.nameWasChanged;
    }
    text := Concat(previous);
  }

  /** One "%s, %s, %d, %d" entry for an education record. */
  function EducationEntry(e: Education): string
  {
    e.educationType + ", " + e.institutionName + ", " + FormatInt(e.beginYear) + ", " + FormatInt(e.endYear)
  }

  /** The entries of the education records, one each, in order. */
  function EducationEntries(items: seq<Education>): seq<string>
  {
    Entries(items, EducationEntry)
  }

  /** What parseEducation returns: the entries back to back, "" for no education. */
  function EducationText(p: Person): string
  {
    Concat(EducationEntries(p.education))
  }

  /** The education text of a list is the texts of its parts back to back. */
  lemma EducationTextAppend(p: Person, a: seq<Education>, b: seq<Education>)
    ensures EducationText(p.(education := a + b)) ==
      EducationText(p.(education := a)) + EducationText(p.(education := b))
    ensures EducationText(p.(education := [])) == ""
  {
    EntriesAppend(a, b, EducationEntry);
    ConcatAppend(EducationEntries(a), EducationEntries(b));
  }

  /** parseEducation, appending one entry per record. */
  method ParseEducation(p: Person) returns (text: string)
    ensures text == EducationText(p)
  {
    var education: seq<string> := [];
    if |p.education| > 0 {
      var i := 0;
      while i < |p.education|
        invariant 0 <= i <= |p.education|
        invariant education == EducationEntries(p.education[..i])
      {
        EntriesSnoc(p.education, i, EducationEntry);
        education := education + [EducationEntry(p.education[i])];
        i := i + 1;
      }
      assert p.education[..i] == p.education;
    } else {
      assert EducationEntries(p.education) == [];
    }
    text := Concat(education);
  }

  // ------------------------------------------------------------ workplaces

  /** The workplace record parseWorkplace keeps: six fields copied, the rest zero. */
  function Workplace(e: Experience): Experience
  {
    Experience(e.beginDate, e.endDate, false, e.name, e.address, "", "", e.position, false, "", e.fireReason)
  }

  /** Keeping the workplace fields twice keeps the same; a record is kept whole exactly when its other fields are zero. */
  lemma WorkplaceProjection(e: Experience)
    ensures Workplace(Workplace(e)) == Workplace(e)
    ensures Workplace(e) == e <==>
      !e.currentJob && e.phone == "" && e.activityType == "" &&
      !e.isPositionMatchEmploymentContract && e.employmentContractPosition == ""
  {
  }

  /** parseWorkplace. */
  method ParseWorkplace(p: Person) returns (workplaces: seq<Experience>)
    ensures |workplaces| == |p.experience|
    ensures forall i :: 0 <= i < |workplaces| ==> workplaces[i] == Workplace(p.experience[i])
  {
    workplaces := [];
    if |p.experience| > 0 {
      var i := 0;
      while i < |p.experience|
        invariant 0 <= i <= |p.experience|
        invariant |workplaces| == i
        invariant forall j :: 0 <= j < i ==> workplaces[j] == Workplace(p.experience[j])
      {
        workplaces := workplaces + [Workplace(p.experience[i])];
        i := i + 1;
      }
    }
  }

  // ---------------------------------------------------------- affiliations

  const PublicOfficeView := "Являлся государственным или муниципальным служащим"
  const StateView := "Являлся государственным должностным лицом"
  const RelatedPersonsView := "Связанные лица работают в госудраственных организациях"
  const CommercialView := "Участвует в деятельности коммерческих организаций"

  /** An organisation as one block lists it: its label, name and position, and its INN when the block keeps it. */
  function Affiliated(o: Organization, view: string, keepInn: bool): Organization
  {
    Organization(view, if keepInn then o.inn else "", "", o.name, o.position)
  }

  /** One block: every organisation of the list, relabelled, in order. */
  function Block(items: seq<Organization>, view: string, keepInn: bool): seq<Organization>
  {
    seq(|items|, i requires 0 <= i < |items| => Affiliated(items[i], view, keepInn))
  }

  /** What parseAffilation returns: the public-office, state, related-persons and commercial blocks, each when flagged. */
  function AffiliationOf(p: Person): (r: seq<Organization>)
    ensures |r| == (if p.hasPublicOfficeOrganizations then |p.publicOfficeOrganizations| else 0)
                 + (if p.hasStateOrganizations then |p.stateOrganizations| else 0)
                 + (if p.hasRelatedPersonsOrganizations then |p.relatedPersonsOrganizations| else 0)
                 + (if p.hasOrganizations then |p.organizations| else 0)
  {
    (if p.hasPublicOfficeOrganizations then Block(p.publicOfficeOrganizations, PublicOfficeView, false) else [])
    + (if p.hasStateOrganizations then Block(p.stateOrganizations, StateView, false) else [])
    + (if p.hasRelatedPersonsOrganizations then Block(p.relatedPersonsOrganizations, RelatedPersonsView, true) else [])
    + (if p.hasOrganizations then Block(p.organizations, CommercialView, true) else [])
  }

  /** The organisations related through the operator's own company never appear. */
  lemma AffiliationIgnoresMts(p: Person, has: bool, orgs: seq<Organization>)
    ensures AffiliationOf(p.(hasMtsRelatedPersonsOrganizations := has, mtsRelatedPersonsOrganizations := orgs))
      == AffiliationOf(p)
  {
  }

  /**
   * Every entry carries one of the four labels and no organisation type,
   * and the two public-service blocks never carry an INN.
   */
  lemma AffiliationLabels(p: Person)
    ensures forall o :: o in AffiliationOf(p) ==>
      o.orgType == "" &&
      (o.view == PublicOfficeView || o.view == StateView || o.view == RelatedPersonsView || o.view == CommercialView) &&
      (o.view == PublicOfficeView || o.view == StateView ==> o.inn == "")
  {
  }

  /** The length is the total of the flagged blocks, in block order. */
  lemma AffiliationOrder(p: Person)
    requires p.hasPublicOfficeOrganizations && p.hasStateOrganizations
    ensures var r := AffiliationOf(p); var n := |p.publicOfficeOrganizations|;
      r[..n] == Block(p.publicOfficeOrganizations, PublicOfficeView, false) &&
      r[n..n + |p.stateOrganizations|] == Block(p.stateOrganizations, StateView, false)
  {
  }

  /** One loop of parseAffilation: the block appended to what came before. */
  method AppendBlock(acc: seq<Organization>, items: seq<Organization>, view: string, keepInn: bool)
    returns (r: seq<Organization>)
    ensures r == acc + Block(items, view, keepInn)
  {
    r := acc;
    var i := 0;
    while i < |items|
      invariant 0 <= i <= |items|
      invariant r == acc + Block(items[..i], view, keepInn)
    {
      assert Block(items[..i + 1], view, keepInn) == Block(items[..i], view, keepInn) + [Affiliated(items[i], view, keepInn)];
      r := r + [Affiliated(items[i], view, keepInn)];
      i := i + 1;
    }
    assert items[..i] == items;
  }

  /** parseAffilation, block by block. */
  method ParseAffilation(p: Person) returns (affilation: seq<Organization>)
    ensures affilation == AffiliationOf(p)
  {
    ghost var public := if p.hasPublicOfficeOrganizations then Block(p.publicOfficeOrganizations, PublicOfficeView, false) else [];
    ghost var state := if p.hasStateOrganizations then Block(p.stateOrganizations, StateView, false) else [];
    ghost var related := if p.hasRelatedPersonsOrganizations then Block(p.relatedPersonsOrganizations, RelatedPersonsView, true) else [];
    ghost var commercial := if p.hasOrganizations then Block(p.organizations, CommercialView, true) else [];
    affilation := [];
    if p.hasPublicOfficeOrganizations {
      affilation := AppendBlock(affilation, p.publicOfficeOrganizations, PublicOfficeView, false);
    }
    assert affilation == public;
    if p.hasStateOrganizations {
      affilation := AppendBlock(affilation, p.stateOrganizations, StateView, false);
    }
    assert affilation == public + state;
    if p.hasRelatedPersonsOrganizations {
      affilation := AppendBlock(affilation, p.relatedPersonsOrganizations, RelatedPersonsView, true);
    }
    assert affilation == public + state + related;
    if p.hasOrganizations {
      affilation := AppendBlock(affilation, p.organizations, CommercialView, true);
    }
    assert affilation == public + state + related + commercial;
  }
}
