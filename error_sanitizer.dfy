/** The error sanitizer (src/common/utils/error-sanitizer.util.ts): turns
    PostgreSQL constraint names, column names and free-text error messages
    into approved Spanish phrases when the process runs in production with
    detailed errors switched off, and lets them through otherwise. */
module ErrorSanitizer {
  import opened Wrappers
  import opened Text

  /** What `configService.get(key)` can answer: the environment as a map;
      a key that is not in it reads as `undefined`. `None` is a missing
      configuration service. */
  type Config = map<string, string>

  function Get(config: Option<Config>, key: string): Option<string> {
    if config.Some? && key in config.value then Some(config.value[key]) else None
  }

  /** Constraint names with an approved phrase. */
  const CONSTRAINT_MESSAGES: map<string, string> := map[
    "clients_email_unique" := "email",
    "users_email_unique" := "email",
    "users_username_unique" := "nombre de usuario",
    "clients_dui_unique" := "DUI",
    "unique" := "valor único",
    "primary" := "identificador"
  ]

  /** Column names with an approved phrase. */
  const COLUMN_MESSAGES: map<string, string> := map[
    "email" := "email",
    "username" := "nombre de usuario",
    "dui" := "DUI",
    "phone" := "teléfono",
    "password" := "contraseña",
    "role_id" := "rol",
    "client_id" := "cliente",
    "user_id" := "usuario"
  ]

  const UNIQUE_FIELD := "campo único"
  const FIELD := "campo"

  /** Every phrase `SanitizeConstraint` may produce while sanitizing. */
  const ConstraintPhrases: set<string> := CONSTRAINT_MESSAGES.Values + COLUMN_MESSAGES.Values + {UNIQUE_FIELD}

  /** Every phrase `SanitizeColumn` may produce while sanitizing. */
  const ColumnPhrases: set<string> := COLUMN_MESSAGES.Values + {FIELD}

  /** `table[key] || fallback`: the entry when it is present and non-empty. */
  function LookupOr(table: map<string, string>, key: string, fallback: string): (r: string)
    ensures r in table.Values || r == fallback
    ensures key in table && table[key] != "" ==> r == table[key]
    ensures key !in table ==> r == fallback
  {
    if key in table && table[key] != "" then table[key] else fallback
  }

  /** An `ErrorSanitizer`: two read-only flags fixed by its constructor. */
  datatype Sanitizer = Sanitizer(isProduction: bool, showDetailedErrors: bool)

  /** `new ErrorSanitizer(configService)`. */
  function NewSanitizer(config: Option<Config>): (s: Sanitizer)
    ensures !s.isProduction ==> s.showDetailedErrors
  {
    var isProduction := Get(config, "NODE_ENV") == Some("production");
    Sanitizer(isProduction, Get(config, "SHOW_DETAILED_ERRORS") == Some("true") || !isProduction)
  }

  /** The condition under which the sanitizer replaces identifiers and
      messages by approved phrases. */
  predicate Active(s: Sanitizer) {
    s.isProduction && !s.showDetailedErrors
  }

  /** Sanitization is on exactly when NODE_ENV is `production` and
      SHOW_DETAILED_ERRORS is not `true`; with no configuration it is off. */
  lemma SanitizationPolicy(config: Option<Config>)
    ensures Active(NewSanitizer(config)) <==>
              Get(config, "NODE_ENV") == Some("production") && Get(config, "SHOW_DETAILED_ERRORS") != Some("true")
    ensures config.None? ==> ShouldShowDetailedErrors(NewSanitizer(config))
  {
  }

  /** `shouldShowDetailedErrors()`. */
  function ShouldShowDetailedErrors(s: Sanitizer): (r: bool)
    ensures r ==> !Active(s)
  {
    s.showDetailedErrors
  }

  /** For a sanitizer built from a configuration, detailed errors are shown
      exactly when sanitization is off. */
  lemma DetailedIffInactive(config: Option<Config>)
    ensures ShouldShowDetailedErrors(NewSanitizer(config)) <==> !Active(NewSanitizer(config))
  {
  }

  /** `sanitizeConstraint(constraint)`. */
  function SanitizeConstraint(s: Sanitizer, constraint: Option<string>): (r: string)
    ensures !Truthy(constraint) ==> r == UNIQUE_FIELD
    ensures Active(s) ==> r in ConstraintPhrases
    ensures Active(s) && Truthy(constraint) && ToLower(constraint.value) in CONSTRAINT_MESSAGES ==>
              r == CONSTRAINT_MESSAGES[ToLower(constraint.value)]
    ensures Active(s) && Truthy(constraint) && ToLower(constraint.value) !in CONSTRAINT_MESSAGES ==>
              r == SegmentPhrase(ToLower(constraint.value))
    ensures !Active(s) && Truthy(constraint) ==> r == constraint.value
  {
    if !Truthy(constraint) then UNIQUE_FIELD
    else if Active(s) then ConstraintPhrase(ToLower(constraint.value))
    else constraint.value
  }

  /** The phrase for a lower-cased constraint name: its own entry, else the
      phrase of its second-to-last `_` segment, else the generic one. */
  function ConstraintPhrase(key: string): (r: string)
    ensures r in ConstraintPhrases
    ensures key in CONSTRAINT_MESSAGES ==> r == CONSTRAINT_MESSAGES[key]
    ensures key !in CONSTRAINT_MESSAGES ==> r == SegmentPhrase(key)
  {
    if key in CONSTRAINT_MESSAGES && CONSTRAINT_MESSAGES[key] != "" then CONSTRAINT_MESSAGES[key]
    else SegmentPhrase(key)
  }

  /** The naming heuristic alone. */
  function SegmentPhrase(key: string): (r: string)
    ensures r in COLUMN_MESSAGES.Values || r == UNIQUE_FIELD
  {
    match SecondToLast(key)
    case None => UNIQUE_FIELD
    case Some(segment) => LookupOr(COLUMN_MESSAGES, segment, UNIQUE_FIELD)
  }

  /** The second-to-last `_` segment of a name, if it has two or more. */
  function SecondToLast(key: string): Option<string> {
    var parts := Split(key, '_');
    if |parts| >= 2 then Some(parts[|parts| - 2]) else None
  }

  /** With sanitization on, a non-empty name is reported by the phrase of
      its lower-cased form. */
  lemma ActiveConstraint(s: Sanitizer, constraint: string)
    requires Active(s) && constraint != ""
    ensures SanitizeConstraint(s, Some(constraint)) == ConstraintPhrase(ToLower(constraint))
  {
  }

  /** A name built from `_`-free segments splits back into them. */
  lemma SegmentOfJoin(parts: seq<string>)
    requires |parts| >= 2 && forall k :: 0 <= k < |parts| ==> '_' !in parts[k]
    ensures SecondToLast(Join(parts, '_')) == Some(parts[|parts| - 2])
    ensures Join(parts, '_') != ""
  {
    SplitJoin(parts, '_');
    SecondToLastOf(Join(parts, '_'), parts);
  }

  lemma SecondToLastOf(key: string, parts: seq<string>)
    requires Split(key, '_') == parts && |parts| >= 2
    ensures SecondToLast(key) == Some(parts[|parts| - 2]) && key != ""
  {
    assert '_' in key;
  }

  /** The naming heuristic: a constraint `<p0>_..._<field>_<suffix>` with no
      phrase of its own is named after the phrase of its second-to-last
      segment, or the generic phrase. */
  lemma SecondToLastSegment(s: Sanitizer, constraint: string, parts: seq<string>)
    requires Active(s)
    requires |parts| >= 2 && forall k :: 0 <= k < |parts| ==> '_' !in parts[k]
    requires ToLower(constraint) == Join(parts, '_')
    requires Join(parts, '_') !in CONSTRAINT_MESSAGES
    ensures SanitizeConstraint(s, Some(constraint)) == LookupOr(COLUMN_MESSAGES, parts[|parts| - 2], UNIQUE_FIELD)
  {
    SegmentOfJoin(parts);
    assert |ToLower(constraint)| == |constraint|;
    ActiveConstraint(s, constraint);
  }

  /** A constraint name without `_` and without a phrase of its own gets the
      generic phrase. */
  lemma NoSegmentsGeneric(s: Sanitizer, constraint: string)
    requires Active(s) && constraint != ""
    requires '_' !in ToLower(constraint) && ToLower(constraint) !in CONSTRAINT_MESSAGES
    ensures SanitizeConstraint(s, Some(constraint)) == UNIQUE_FIELD
  {
  }

  /** A name without capital letters is its own lower case. */
  lemma LowerCaseUnchanged(name: string)
    requires HasNoCapitals(name)
    ensures ToLower(name) == name
  {
  }

  /** No name whose fourth-to-last character is `_` has a phrase of its own. */
  lemma KeySuffixHasNoPhrase(name: string)
    requires |name| >= 4 && name[|name| - 4] == '_'
    ensures name !in CONSTRAINT_MESSAGES
  {
    forall k | k in CONSTRAINT_MESSAGES
      ensures |k| < 4 || k[|k| - 4] != '_'
    {
    }
  }

  /** PostgreSQL's default name for a unique constraint on one column. */
  function KeyConstraintName(table: string, column: string): string {
    table + "_" + column + "_key"
  }

  lemma KeyNameSegments(table: string, column: string)
    requires '_' !in table && '_' !in column
    requires HasNoCapitals(table) && HasNoCapitals(column)
    ensures var name := KeyConstraintName(table, column);
      ToLower(name) == Join([table, column, "key"], '_') && Join([table, column, "key"], '_') !in CONSTRAINT_MESSAGES
  {
    var name := KeyConstraintName(table, column);
    var parts := [table, column, "key"];
    assert parts[1..] == [column, "key"] && parts[1..][1..] == ["key"];
    assert Join([column, "key"], '_') == column + ['_'] + "key";
    assert name == table + ['_'] + (column + ['_'] + "key");
    LowerCaseUnchanged(name);
    KeySuffixHasNoPhrase(name);
  }

  /** PostgreSQL names a unique constraint `<table>_<column>_key`, and so does
      the schema; such a constraint is reported by its column's phrase. */
  lemma KeyConstraintNamedAfterColumn(s: Sanitizer, table: string, column: string)
    requires Active(s)
    requires '_' !in table && '_' !in column
    requires HasNoCapitals(table) && HasNoCapitals(column)
    ensures SanitizeConstraint(s, Some(KeyConstraintName(table, column))) == LookupOr(COLUMN_MESSAGES, column, UNIQUE_FIELD)
  {
    KeyNameSegments(table, column);
    SecondToLastSegment(s, KeyConstraintName(table, column), [table, column, "key"]);
  }

  /** `sanitizeColumn(column)`. */
  function SanitizeColumn(s: Sanitizer, column: Option<string>): (r: string)
    ensures !Truthy(column) ==> r == FIELD
    ensures Active(s) ==> r in ColumnPhrases
    ensures Active(s) && Truthy(column) && ToLower(column.value) in COLUMN_MESSAGES ==>
              r == COLUMN_MESSAGES[ToLower(column.value)]
    ensures Active(s) && Truthy(column) && ToLower(column.value) !in COLUMN_MESSAGES ==> r == FIELD
    ensures !Active(s) && Truthy(column) ==> r == column.value
  {
    if !Truthy(column) then FIELD
    else if Active(s) then LookupOr(COLUMN_MESSAGES, ToLower(column.value), FIELD)
    else column.value
  }

  // ---------------------------------------------------------------------------
  // sanitizeErrorMessage: the two regular expressions as scanners

  /** Length of the match of `\.(ts|js):\d+:\d+` at the start of `s`, or 0.
      Both `\d+` are followed by something that is not a digit, so each
      takes the whole run of digits. */
  function SourceLocationLength(s: string): (n: nat)
    ensures n <= |s|
  {
    if |s| >= 4 && s[0] == '.' && (s[1] == 't' || s[1] == 'j') && s[2] == 's' && s[3] == ':' then
      var d1 := Run(s[4..], IsDigit);
      if d1 > 0 && 4 + d1 < |s| && s[4 + d1] == ':' then
        var d2 := Run(s[5 + d1..], IsDigit);
        if d2 > 0 then 5 + d1 + d2 else 0
      else 0
    else 0
  }

  /** Backtracking of the greedy `[^\s]+`: tries `j, j - 1, ..., 2` as the
      position where it stops, and the first one after which the source
      location matches wins. */
  function PathMatchUpTo(s: string, j: nat): (n: nat)
    requires j <= |s|
    ensures n <= |s|
    decreases j
  {
    if j < 2 then 0
    else
      var n := SourceLocationLength(s[j..]);
      if n > 0 then j + n else PathMatchUpTo(s, j - 1)
  }

  /** Length of the match of `\/[^\s]+\.(ts|js):\d+:\d+` at the start of `s`, or 0. */
  function PathMatchLength(s: string): (n: nat)
    ensures n <= |s|
  {
    if s != [] && s[0] == '/' then PathMatchUpTo(s, 1 + Run(s[1..], IsNotSpace)) else 0
  }

  /** A source location contains no white space. */
  lemma SourceLocationNoSpace(s: string)
    ensures forall k :: 0 <= k < SourceLocationLength(s) ==> !IsSpace(s[k])
  {
  }

  lemma {:induction false} PathMatchUpToNoSpace(s: string, j: nat)
    requires j <= |s| && forall k :: 0 <= k < j ==> !IsSpace(s[k])
    ensures forall k :: 0 <= k < PathMatchUpTo(s, j) ==> !IsSpace(s[k])
    decreases j
  {
    if j >= 2 {
      var n := SourceLocationLength(s[j..]);
      SourceLocationNoSpace(s[j..]);
      if n == 0 {
        PathMatchUpToNoSpace(s, j - 1);
      } else {
        assert forall k :: j <= k < j + n ==> s[k] == s[j..][k - j];
      }
    }
  }

  /** A path match contains no white space, and so no line break: `/` and
      `[^\s]+` exclude it, and so does the source location. */
  lemma PathMatchNoSpace(s: string)
    ensures forall k :: 0 <= k < PathMatchLength(s) ==> !IsSpace(s[k])
  {
    if s != [] && s[0] == '/' {
      var j := 1 + Run(s[1..], IsNotSpace);
      assert forall k :: 1 <= k < j ==> s[k] == s[1..][k - 1];
      PathMatchUpToNoSpace(s, j);
    }
  }

  lemma PathMatchesKeepLineBreaks()
    ensures forall t, k :: 0 <= k < PathMatchLength(t) && k < |t| ==> t[k] != '\n'
  {
    forall t, k | 0 <= k < PathMatchLength(t) && k < |t|
      ensures t[k] != '\n'
    {
      PathMatchNoSpace(t);
    }
  }

  /** Length of the match of `at\s+\w+\.\w+` at the start of `s`, or 0.
      `\s`, `\w` and `.` are pairwise disjoint, so every quantifier takes its
      whole run and no backtracking can help. */
  function FrameMatchLength(s: string): (n: nat)
    ensures n <= |s|
  {
    if |s| >= 2 && s[0] == 'a' && s[1] == 't' then
      var w := Run(s[2..], IsSpace);
      var a := Run(s[2 + w..], IsWordChar);
      var dot := 2 + w + a;
      if w > 0 && a > 0 && dot < |s| && s[dot] == '.' then
        var b := Run(s[dot + 1..], IsWordChar);
        if b > 0 then dot + 1 + b else 0
      else 0
    else 0
  }

  /** `s.replace(/pattern/g, '')` for an unanchored pattern whose matches are
      never empty, given by the length of its match at the start of a string
      (0 for none): the leftmost match is removed and the search resumes
      where it ended. */
  function RemoveAll(s: string, matchLength: string -> nat): (r: string)
    requires forall t :: matchLength(t) <= |t|
    ensures |r| <= |s|
    decreases |s|
  {
    if s == [] then []
    else
      var n := matchLength(s);
      if n > 0 then RemoveAll(s[n..], matchLength) else [s[0]] + RemoveAll(s[1..], matchLength)
  }

  /** Removing matches only deletes characters. */
  lemma {:induction false} RemoveAllIsSubsequence(s: string, matchLength: string -> nat)
    requires forall t :: matchLength(t) <= |t|
    ensures IsSubsequence(RemoveAll(s, matchLength), s)
    decreases |s|
  {
    if s != [] {
      var n := matchLength(s);
      if n > 0 {
        RemoveAllIsSubsequence(s[n..], matchLength);
        SuffixIsSubsequence(s, n);
        SubsequenceTransitive(RemoveAll(s, matchLength), s[n..], s);
      } else {
        RemoveAllIsSubsequence(s[1..], matchLength);
      }
    }
  }

  /** Removing matches from a string without line breaks adds none. */
  lemma {:induction false} RemoveAllKeepsOneLine(s: string, matchLength: string -> nat)
    requires forall t :: matchLength(t) <= |t|
    requires '\n' !in s
    ensures '\n' !in RemoveAll(s, matchLength)
  {
    RemoveAllIsSubsequence(s, matchLength);
    SubsequenceMembers(RemoveAll(s, matchLength), s);
  }

  /** When no match contains a line break, removing matches keeps only
      characters of the first line in the first line. */
  lemma {:induction false} RemoveAllFirstLine(s: string, matchLength: string -> nat)
    requires forall t :: matchLength(t) <= |t|
    requires forall t, k :: 0 <= k < matchLength(t) && k < |t| ==> t[k] != '\n'
    ensures IsSubsequence(FirstLine(RemoveAll(s, matchLength)), FirstLine(s))
    decreases |s|
  {
    if s != [] {
      var n := matchLength(s);
      if n > 0 {
        RemoveAllFirstLine(s[n..], matchLength);
        assert '\n' !in s[..n];
        FirstLineDrop(s, n);
        SubsequenceTransitive(FirstLine(RemoveAll(s[n..], matchLength)), FirstLine(s[n..]), FirstLine(s));
      } else {
        RemoveAllFirstLine(s[1..], matchLength);
        FirstLineKeep(s[0], RemoveAll(s[1..], matchLength), s[1..]);
        assert s == [s[0]] + s[1..];
      }
    }
  }

  /** Dropping a prefix without a line break keeps the rest of the first line. */
  lemma FirstLineDrop(s: string, n: nat)
    requires n <= |s| && '\n' !in s[..n]
    ensures IsSubsequence(FirstLine(s[n..]), FirstLine(s))
  {
    assert s == s[..n] + s[n..];
    FirstLineAppend(s[..n], s[n..]);
    assert FirstLine(s)[n..] == FirstLine(s[n..]);
    SuffixIsSubsequence(FirstLine(s), n);
  }

  /** Putting the same character in front of both strings keeps the relation. */
  lemma FirstLineKeep(c: char, x: string, y: string)
    requires IsSubsequence(FirstLine(x), FirstLine(y))
    ensures IsSubsequence(FirstLine([c] + x), FirstLine([c] + y))
  {
    if c == '\n' {
      FirstLineAtBreak(x);
    } else {
      FirstLineAppend([c], x);
      FirstLineAppend([c], y);
      assert ([c] + FirstLine(x))[1..] == FirstLine(x);
      assert ([c] + FirstLine(y))[1..] == FirstLine(y);
    }
  }

  /** Every character of a subsequence occurs in the sequence. */
  lemma {:induction false} SubsequenceMembers(a: string, b: string)
    requires IsSubsequence(a, b)
    ensures forall c :: c in a ==> c in b
    decreases |b|
  {
    if a != [] {
      if a[0] == b[0] && IsSubsequence(a[1..], b[1..]) {
        SubsequenceMembers(a[1..], b[1..]);
        assert a == [a[0]] + a[1..];
      } else {
        SubsequenceMembers(a, b[1..]);
      }
      assert b == [b[0]] + b[1..];
    }
  }

  /** The three sanitizing steps: remove source locations, keep the first
      line, remove `at X.Y` frame references. */
  function StripTechnicalDetails(message: string): (r: string)
    ensures '\n' !in r
    ensures IsSubsequence(r, FirstLine(message))
  {
    var withoutPaths := RemoveAll(message, PathMatchLength);
    var firstLine := FirstLine(withoutPaths);
    RemoveAllKeepsOneLine(firstLine, FrameMatchLength);
    PathMatchesKeepLineBreaks();
    RemoveAllFirstLine(message, PathMatchLength);
    RemoveAllIsSubsequence(firstLine, FrameMatchLength);
    SubsequenceTransitive(RemoveAll(firstLine, FrameMatchLength), firstLine, FirstLine(message));
    RemoveAll(firstLine, FrameMatchLength)
  }

  lemma StripTechnicalDetailsDeletesOnly(message: string)
    ensures IsSubsequence(StripTechnicalDetails(message), message)
  {
    var withoutPaths := RemoveAll(message, PathMatchLength);
    var firstLine := FirstLine(withoutPaths);
    var r := RemoveAll(firstLine, FrameMatchLength);
    assert StripTechnicalDetails(message) == r;
    RemoveAllIsSubsequence(message, PathMatchLength);
    assert firstLine == withoutPaths[..|firstLine|];
    PrefixIsSubsequence(withoutPaths, |firstLine|);
    SubsequenceTransitive(firstLine, withoutPaths, message);
    RemoveAllIsSubsequence(firstLine, FrameMatchLength);
    SubsequenceTransitive(r, firstLine, message);
  }

  /** `sanitizeErrorMessage(message)`: when sanitizing, source locations are
      removed, only the first line is kept and `at X.Y` frame references are
      removed; the result is always trimmed. */
  function SanitizeErrorMessage(s: Sanitizer, message: string): (r: string)
    ensures IsTrimmed(r)
    ensures Active(s) ==> '\n' !in r
    ensures Active(s) ==> IsSubsequence(r, FirstLine(message))
    ensures !Active(s) ==> r == Trim(message)
  {
    var m := if Active(s) then StripTechnicalDetails(message) else message;
    TrimIsTrimmed(m);
    TrimIsSubsequence(m);
    SubsequenceMembers(Trim(m), m);
    if Active(s) then
      SubsequenceTransitive(Trim(m), m, FirstLine(message));
      Trim(m)
    else
      Trim(m)
  }

  /** Sanitizing never adds text: the result is the message with some
      characters deleted. */
  lemma SanitizeErrorMessageDeletesOnly(s: Sanitizer, message: string)
    ensures IsSubsequence(SanitizeErrorMessage(s, message), message)
  {
    var m := if Active(s) then StripTechnicalDetails(message) else message;
    if Active(s) {
      StripTechnicalDetailsDeletesOnly(message);
    } else {
      SubsequenceReflexive(message);
    }
    TrimIsSubsequence(m);
    SubsequenceTransitive(Trim(m), m, message);
  }

  /** Without sanitization, sanitizing twice is sanitizing once. */
  lemma InactiveSanitizeIdempotent(s: Sanitizer, message: string)
    requires !Active(s)
    ensures SanitizeErrorMessage(s, SanitizeErrorMessage(s, message)) == SanitizeErrorMessage(s, message)
  {
    TrimIdempotent(message);
  }

  lemma RemoveAllStep(s: string, matchLength: string -> nat)
    requires forall t :: matchLength(t) <= |t|
    requires s != [] && matchLength(s) == 0
    ensures RemoveAll(s, matchLength) == [s[0]] + RemoveAll(s[1..], matchLength)
  {
  }

  /** A prefix without matches is kept as it is. */
  lemma {:induction false} RemoveAllPrefix(s: string, matchLength: string -> nat, k: nat)
    requires forall t :: matchLength(t) <= |t|
    requires k <= |s|
    requires forall i :: 0 <= i < k ==> matchLength(s[i..]) == 0
    ensures RemoveAll(s, matchLength) == s[..k] + RemoveAll(s[k..], matchLength)
    decreases k
  {
    if k > 0 {
      RemoveAllPrefix(s, matchLength, k - 1);
      KeepOne(s, matchLength, k);
    } else {
      assert s[0..] == s;
    }
  }

  /** A character that starts no match is kept. */
  lemma KeepOne(s: string, matchLength: string -> nat, k: nat)
    requires forall t :: matchLength(t) <= |t|
    requires 0 < k <= |s| && matchLength(s[k - 1..]) == 0
    ensures s[..k - 1] + RemoveAll(s[k - 1..], matchLength) == s[..k] + RemoveAll(s[k..], matchLength)
  {
    var rest := s[k - 1..];
    RemoveAllStep(rest, matchLength);
    assert rest[1..] == s[k..];
    assert s[..k - 1] + [rest[0]] == s[..k];
  }

  /** The first match, at `k`, is cut out and the search resumes after it. */
  lemma RemoveAllFirstMatch(s: string, matchLength: string -> nat, k: nat, n: nat)
    requires forall t :: matchLength(t) <= |t|
    requires k < |s| && matchLength(s[k..]) == n > 0
    requires forall i :: 0 <= i < k ==> matchLength(s[i..]) == 0
    ensures k + n <= |s|
    ensures RemoveAll(s, matchLength) == s[..k] + RemoveAll(s[k + n..], matchLength)
  {
    RemoveAllPrefix(s, matchLength, k);
    assert s[k..][n..] == s[k + n..];
  }

  /** A message without `/` contains no source location. */
  lemma {:induction false} NoSlashNoPath(s: string)
    requires '/' !in s
    ensures RemoveAll(s, PathMatchLength) == s
  {
    if s != [] {
      assert PathMatchLength(s) == 0;
      RemoveAllStep(s, PathMatchLength);
      assert '/' !in s[1..] by {
        assert forall c :: c in s[1..] ==> c in s;
      }
      NoSlashNoPath(s[1..]);
    }
  }

  /** A message without `a` contains no frame reference. */
  lemma {:induction false} NoLetterANoFrame(s: string)
    requires 'a' !in s
    ensures RemoveAll(s, FrameMatchLength) == s
  {
    if s != [] {
      assert FrameMatchLength(s) == 0;
      RemoveAllStep(s, FrameMatchLength);
      assert 'a' !in s[1..] by {
        assert forall c :: c in s[1..] ==> c in s;
      }
      NoLetterANoFrame(s[1..]);
    }
  }

  /** A run that stops after its first character. */
  lemma RunOfOne(s: string, p: char -> bool)
    requires |s| >= 2 && p(s[0]) && !p(s[1])
    ensures Run(s, p) == 1
  {
    assert s[1..][0] == s[1];
  }

  lemma {:induction false} RemoveAllSplice(s: string, matchLength: string -> nat, k: nat, n: nat)
    requires forall t :: matchLength(t) <= |t|
    requires k < |s| && matchLength(s[k..]) == n > 0
    requires forall i :: 0 <= i < k ==> matchLength(s[i..]) == 0
    requires k + n <= |s| && RemoveAll(s[k + n..], matchLength) == s[k + n..]
    ensures RemoveAll(s, matchLength) == s[..k] + s[k + n..]
  {
    RemoveAllFirstMatch(s, matchLength, k, n);
  }

  /** When the message has no line break left after removing source
      locations, sanitizing is the two removals (the result being trimmed). */
  lemma SanitizeOneLine(s: Sanitizer, message: string, withoutPaths: string, r: string)
    requires Active(s)
    requires RemoveAll(message, PathMatchLength) == withoutPaths && '\n' !in withoutPaths
    requires RemoveAll(withoutPaths, FrameMatchLength) == r && IsTrimmed(r)
    ensures SanitizeErrorMessage(s, message) == r
  {
    assert FirstLine(withoutPaths) == withoutPaths;
    assert StripTechnicalDetails(message) == r;
    TrimOfTrimmed(r);
  }

  // ---------------------------------------------------------------------------
  // the module-level singleton

  /** The module-level `sanitizerInstance` and `getErrorSanitizer`. */
  class SanitizerRegistry {
    var instance: Option<Sanitizer>

    /** Module load: no instance yet. */
    constructor()
      ensures instance == None
    {
      instance := None;
    }

    /** `getErrorSanitizer(configService)`: the first call builds the
        instance from its configuration; every later call returns that
        instance and ignores its own configuration. */
    method GetErrorSanitizer(config: Option<Config>) returns (s: Sanitizer)
      modifies this
      ensures instance == Some(s)
      ensures old(instance).Some? ==> s == old(instance).value
      ensures old(instance).None? ==> s == NewSanitizer(config)
    {
      if instance.None? {
        instance := Some(NewSanitizer(config));
      }
      s := instance.value;
    }
  }

  /** First call wins: a production configuration presented after a
      development one is ignored, and the reverse. */
  method FirstCallWins(registry: SanitizerRegistry, first: Option<Config>, later: Option<Config>)
    returns (a: Sanitizer, b: Sanitizer)
    requires registry.instance == None
    modifies registry
    ensures a == NewSanitizer(first) && b == a
  {
    a := registry.GetErrorSanitizer(first);
    b := registry.GetErrorSanitizer(later);
  }
}
