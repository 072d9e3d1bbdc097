/** `_find_packages_in_requirements` (shinylive/_deps.py): the package names
    of a requirements.txt, one per specification line, with version
    constraints cut off and `_` turned into `-`. */
module Requirements {
  import opened Strings
  import opened Outcomes

  /** A character of the class `[a-zA-Z0-9._-]`. */
  predicate IsNameChar(c: char) {
    ('a' <= c <= 'z') || ('A' <= c <= 'Z') || ('0' <= c <= '9') || c == '.' || c == '_' || c == '-'
  }

  /** Index of the first name character of `s`, or `|s|`. */
  function FirstNameChar(s: string): (p: nat)
    ensures p <= |s|
    ensures forall i :: 0 <= i < p ==> !IsNameChar(s[i])
    ensures p < |s| ==> IsNameChar(s[p])
  {
    if |s| == 0 || IsNameChar(s[0]) then 0 else 1 + FirstNameChar(s[1..])
  }

  /** End of the run of name characters starting at `p`. */
  function RunEnd(s: string, p: nat): (q: nat)
    requires p <= |s|
    ensures p <= q <= |s|
    ensures forall i :: p <= i < q ==> IsNameChar(s[i])
    ensures q < |s| ==> !IsNameChar(s[q])
    decreases |s| - p
  {
    if p == |s| || !IsNameChar(s[p]) then p else RunEnd(s, p + 1)
  }

  /** `re.sub(r"([a-zA-Z0-9._-]+)(.*)", r"\1", line)` on a line without a
      newline. The pattern is not anchored: the first match starts at the
      first name character, takes the longest run of name characters as
      group 1 and the rest of the line as group 2, so the text before the
      run is kept and everything after it is dropped. A line without name
      characters does not match and is returned unchanged. */
  function CutAfterName(line: string): (r: string)
    ensures (forall i :: 0 <= i < |line| ==> !IsNameChar(line[i])) ==> r == line
    ensures (exists i :: 0 <= i < |line| && IsNameChar(line[i])) ==>
              && |r| <= |line| && r == line[..|r|]
              && |r| > 0 && IsNameChar(r[|r| - 1])
              && (forall i, j :: 0 <= i < j < |r| && IsNameChar(r[i]) ==> IsNameChar(r[j]))
              && (|r| == |line| || !IsNameChar(line[|r|]))
  {
    var p := FirstNameChar(line);
    if p == |line| then line else line[..RunEnd(line, p)]
  }

  predicate IsSkipped(line: string) {
    line == "" || StartsWith(line, "#") || StartsWith(line, "http://") || StartsWith(line, "https://")
  }

  /** The package name one line contributes, if any: blank lines, comments
      and URLs (after stripping) contribute nothing. */
  function RequirementOf(line: string): (r: Option<string>)
    ensures r.None? <==> IsSkipped(Strip(line))
    ensures r.Some? ==> '_' !in r.value
  {
    var l := Strip(line);
    if IsSkipped(l) then None
    else Some(ReplaceChar(Strip(CutAfterName(l)), '_', '-'))
  }

  function Collect(lines: seq<string>): (r: seq<string>)
    ensures |r| <= |lines|
    ensures forall k :: 0 <= k < |r| ==> '_' !in r[k]
  {
    if |lines| == 0 then []
    else
      var rest := Collect(lines[1..]);
      match RequirementOf(lines[0])
      case None => rest
      case Some(name) => [name] + rest
  }

  /** `_find_packages_in_requirements(req_txt)`: at most one name per line,
      none holding `_`. */
  function FindPackagesInRequirements(text: string): (r: seq<string>)
    ensures |r| <= |Split(text, '\n')|
    ensures forall k :: 0 <= k < |r| ==> '_' !in r[k]
  {
    Collect(Split(text, '\n'))
  }

  function OptionToSeq(o: Option<string>): seq<string> {
    if o.Some? then [o.value] else []
  }

  /** Lines are read in order and each contributes on its own: no
      deduplication, no reordering. */
  lemma RequirementsPerLine(line: string, rest: string)
    requires '\n' !in line
    ensures FindPackagesInRequirements(line + "\n" + rest) ==
            OptionToSeq(RequirementOf(line)) + FindPackagesInRequirements(rest)
  {
    SplitAppend(line, rest, '\n');
    assert line + "\n" + rest == line + ['\n'] + rest;
  }

  /** Characters that start a version constraint, marker or direct
      reference after a package name. */
  predicate IsConstraintStart(c: char) {
    c == ' ' || c == '(' || c == '<' || c == '>' || c == '=' || c == '!' || c == '~' || c == ';' || c == '[' || c == '@'
  }

  /** A line holding a name followed by a version constraint (or nothing)
      yields the name with `_` replaced by `-`; case is preserved. */
  lemma NameWithConstraint(line: string, name: string, constraint: string)
    requires Strip(line) == name + constraint
    requires |name| > 0 && forall i :: 0 <= i < |name| ==> IsNameChar(name[i])
    requires |constraint| > 0 ==> IsConstraintStart(constraint[0])
    ensures RequirementOf(line) == Some(ReplaceChar(name, '_', '-'))
  {
    var l := name + constraint;
    assert l[0] == name[0];
    NotUrl(l, name, constraint, "http://");
    NotUrl(l, name, constraint, "https://");
    assert !IsSkipped(l);
    assert FirstNameChar(l) == 0;
    RunOfName(l, name, 0);
    assert l[..|name|] == name;
    StripTrimmed(name);
  }

  /** A name followed by a constraint never reads as a URL: the `:` of the
      scheme would have to be a name character or start the constraint. */
  lemma NotUrl(l: string, name: string, constraint: string, scheme: string)
    requires l == name + constraint
    requires |name| > 0 && forall i :: 0 <= i < |name| ==> IsNameChar(name[i])
    requires |constraint| > 0 ==> IsConstraintStart(constraint[0])
    requires scheme == "http://" || scheme == "https://"
    ensures !StartsWith(l, scheme)
  {
    var c := |scheme| - 3;
    assert scheme[c] == ':';
    if |scheme| <= |l| {
      if c < |name| {
        assert l[c] == name[c];
        assert l[..|scheme|][c] != scheme[c];
      } else if c == |name| {
        assert l[c] == constraint[0];
        assert l[..|scheme|][c] != scheme[c];
      } else {
        var k := |name|;
        assert l[k] == constraint[0];
        assert scheme[k] == 'h' || scheme[k] == 't' || scheme[k] == 'p' || scheme[k] == 's';
        assert l[..|scheme|][k] != scheme[k];
      }
    }
  }

  lemma {:induction false} RunOfName(l: string, name: string, p: nat)
    requires |name| <= |l| && l[..|name|] == name && p <= |name|
    requires forall i :: 0 <= i < |name| ==> IsNameChar(name[i])
    requires |name| < |l| ==> !IsNameChar(l[|name|])
    ensures RunEnd(l, p) == |name|
    decreases |name| - p
  {
    if p < |name| {
      assert l[p] == name[p];
      RunOfName(l, name, p + 1);
    }
  }

  /** A requirements text that is a single bare name yields that name
      (with `_` as `-`), whatever its case. */
  lemma SingleName(name: string)
    requires |name| > 0 && forall i :: 0 <= i < |name| ==> IsNameChar(name[i])
    ensures FindPackagesInRequirements(name) == [ReplaceChar(name, '_', '-')]
  {
    assert '\n' !in name by {
      forall i | 0 <= i < |name| ensures name[i] != '\n' {
        assert IsNameChar(name[i]);
      }
    }
    assert IndexOf(name, '\n') == |name|;
    StripTrimmed(name);
    NameWithConstraint(name, name, "");
    assert name + "" == name;
  }

  /** Lines of a typical file: an indented name with `_`, an indented
      name with a version constraint, a comment and a trailing indentation.
      (Each line is a parameter so that the verifier does not unfold the
      functions on the literal eagerly.) */
  lemma IndentedUnderscoreLine(line: string)
    requires line == "    " + "typing_extensions"
    ensures RequirementOf(line) == Some("typing-extensions")
  {
    IndentedLine(line, "typing_extensions", "");
    UnderscoreToHyphen();
  }

  /** The whole requirements text of the package's own test: a leading
      newline, the two indented specifications, an indented comment and a
      trailing indentation give the two names in line order. (The lines are
      parameters so that the verifier does not unfold the literal.) */
  lemma RequirementsTextExample(text: string, l1: string, l2: string, l3: string, l4: string)
    requires l1 == "    " + "typing_extensions"
    requires l2 == "    " + "jsonschema-specifications" + " (<1.0)"
    requires l3 == "    # comment" && l4 == "    "
    requires text == "\n" + l1 + "\n" + l2 + "\n" + l3 + "\n" + l4
    ensures FindPackagesInRequirements(text) == ["typing-extensions", "jsonschema-specifications"]
  {
    NoNewline(l1);
    NoNewline(l2);
    NoNewline(l3);
    assert Strip("") == "";
    IndentedUnderscoreLine(l1);
    IndentedConstrainedLine(l2);
    IndentedCommentLine(l3);
    IndentationOnly(l4);
    FourLines(text, l1, l2, l3, l4, "typing-extensions", "jsonschema-specifications");
  }

  /** A text of a blank line, two lines naming `a` and `b`, a skipped line
      and a last part with no names lists `a` and `b`. */
  lemma FourLines(text: string, l1: string, l2: string, l3: string, l4: string, a: string, b: string)
    requires '\n' !in l1 && '\n' !in l2 && '\n' !in l3
    requires RequirementOf("") == None && RequirementOf(l1) == Some(a) && RequirementOf(l2) == Some(b)
    requires RequirementOf(l3) == None && FindPackagesInRequirements(l4) == []
    requires text == "\n" + l1 + "\n" + l2 + "\n" + l3 + "\n" + l4
    ensures FindPackagesInRequirements(text) == [a, b]
  {
    var t3 := l3 + "\n" + l4;
    RequirementsPerLine(l3, l4);
    assert FindPackagesInRequirements(t3) == [];
    var t2 := l2 + "\n" + t3;
    RequirementsPerLine(l2, t3);
    assert OptionToSeq(RequirementOf(l2)) == [b];
    var t1 := l1 + "\n" + t2;
    RequirementsPerLine(l1, t2);
    assert OptionToSeq(RequirementOf(l1)) == [a];
    PairOfSingles(a, b, FindPackagesInRequirements(t2), FindPackagesInRequirements(t3));
    RequirementsPerLine("", t1);
    LinesRegroup(l1, l2, l3, l4);
  }

  lemma PairOfSingles(a: string, b: string, x: seq<string>, y: seq<string>)
    requires x == [b] + y && y == []
    ensures [a] + x == [a, b]
  {
  }

  lemma NoNewline(l: string)
    requires l == "    " + "typing_extensions" || l == "    " + "jsonschema-specifications" + " (<1.0)" || l == "    # comment"
    ensures '\n' !in l
  {
  }

  /** The text read as its first line and the rest, four times over. */
  lemma LinesRegroup(l1: string, l2: string, l3: string, l4: string)
    ensures "\n" + l1 + "\n" + l2 + "\n" + l3 + "\n" + l4 == "" + "\n" + (l1 + "\n" + (l2 + "\n" + (l3 + "\n" + l4)))
  {
  }

  lemma UnderscoreToHyphen()
    ensures ReplaceChar("typing_extensions", '_', '-') == "typing-extensions"
    ensures ReplaceChar("jsonschema-specifications", '_', '-') == "jsonschema-specifications"
  {
  }

  lemma IndentedConstrainedLine(line: string)
    requires line == "    " + "jsonschema-specifications" + " (<1.0)"
    ensures RequirementOf(line) == Some("jsonschema-specifications")
  {
    IndentedLine(line, "jsonschema-specifications", " (<1.0)");
    UnderscoreToHyphen();
  }

  lemma IndentedCommentLine(line: string)
    requires line == "    # comment"
    ensures RequirementOf(line) == None
  {
    StripIndented(line, 4);
    assert StartsWith(line[4..], "#");
  }

  lemma IndentedLine(line: string, name: string, constraint: string)
    requires line == "    " + name + constraint && |name| > 0 && |name + constraint| > 0
    requires forall i :: 0 <= i < |name| ==> IsNameChar(name[i])
    requires |constraint| > 0 ==> IsConstraintStart(constraint[0])
    requires !IsSpace((name + constraint)[|name + constraint| - 1])
    ensures RequirementOf(line) == Some(ReplaceChar(name, '_', '-'))
  {
    DropFront("    ", name, constraint);
    assert line[4] == (name + constraint)[0];
    StripIndented(line, 4);
    NameWithConstraint(line, name, constraint);
  }

  lemma IndentationOnly(line: string)
    requires line == "    "
    ensures FindPackagesInRequirements(line) == []
  {
    assert IndexOf(line, '\n') == |line|;
    assert LeadingSpace(line) == 4;
    assert Strip(line) == "";
  }

  /** Stripping a line indented by `k` spaces whose text does not end in
      whitespace leaves the text. */
  lemma StripIndented(line: string, k: nat)
    requires k < |line| && forall i :: 0 <= i < k ==> line[i] == ' '
    requires !IsSpace(line[k]) && !IsSpace(line[|line| - 1])
    ensures Strip(line) == line[k..]
  {
    assert LeadingSpace(line) == k by { LeadingSpaces(line, k); }
    assert TrailingSpace(line[k..]) == 0;
    assert line[k..][..|line[k..]|] == line[k..];
  }

  lemma {:induction false} LeadingSpaces(s: string, k: nat)
    requires k < |s| && (forall i :: 0 <= i < k ==> s[i] == ' ') && !IsSpace(s[k])
    ensures LeadingSpace(s) == k
    decreases k
  {
    if k > 0 {
      assert s[1..][k - 1] == s[k];
      LeadingSpaces(s[1..], k - 1);
    }
  }
}
