/** Worked examples of the sanitizer on concrete names and messages. Most
    lemmas take their literal as a parameter fixed by `requires`, which
    keeps the verifier from unfolding the literal where it need not. */
module SanitizerExamples {
  import opened Wrappers
  import opened Text
  import opened ErrorSanitizer

  lemma ConstraintExampleEmail()
    ensures SanitizeConstraint(Sanitizer(true, false), Some(KeyConstraintName("users", "email"))) == "email"
  {
    assert LookupOr(COLUMN_MESSAGES, "email", UNIQUE_FIELD) == "email";
    KeyConstraintNamedAfterColumn(Sanitizer(true, false), "users", "email");
  }

  lemma ConstraintExampleUsername()
    ensures SanitizeConstraint(Sanitizer(true, false), Some(KeyConstraintName("users", "username"))) == "nombre de usuario"
  {
    assert LookupOr(COLUMN_MESSAGES, "username", UNIQUE_FIELD) == "nombre de usuario";
    KeyConstraintNamedAfterColumn(Sanitizer(true, false), "users", "username");
  }

  /** A column without a phrase of its own gets the generic phrase. */
  lemma ConstraintExamplePlate()
    ensures SanitizeConstraint(Sanitizer(true, false), Some(KeyConstraintName("vehicles", "plate"))) == UNIQUE_FIELD
  {
    assert LookupOr(COLUMN_MESSAGES, "plate", UNIQUE_FIELD) == UNIQUE_FIELD;
    KeyConstraintNamedAfterColumn(Sanitizer(true, false), "vehicles", "plate");
  }

  /** A name with an entry of its own is reported by that entry. */
  /** The entry wins over the naming heuristic, which would give the
      generic phrase for a name without `_`. */
  lemma ConstraintExampleTable(name: string)
    requires name == "unique"
    ensures SanitizeConstraint(Sanitizer(true, false), Some(name)) == "valor único"
    ensures SegmentPhrase(name) == UNIQUE_FIELD
  {
    TableNameIsLowerCase(name);
    TableEntryUnique(name);
  }

  lemma TableEntryUnique(name: string)
    requires name == "unique"
    ensures name in CONSTRAINT_MESSAGES && CONSTRAINT_MESSAGES[name] == "valor único"
    ensures '_' !in name
  {
  }

  lemma TableNameIsLowerCase(name: string)
    requires name == "unique"
    ensures ToLower(name) == name
  {
    LowerCaseUnchanged(name);
  }

  /** Outside production the real name is shown. */
  lemma ConstraintExampleDevelopment()
    ensures SanitizeConstraint(NewSanitizer(None), Some("users_email_key")) == "users_email_key"
  {
  }

  lemma NoPathAtStart(m: string)
    requires m == "/qat a.b.ts:1:2"
    ensures PathMatchLength(m) == 0
  {
    assert Run(m[1..], IsNotSpace) == 3 by {
      assert m[1..][3] == ' ';
    }
    assert m[4..][0] == ' ' && m[3..][0] == 't' && m[2..][0] == 'a';
  }

  /** A message whose only `/` is a leading one that starts no source
      location is left alone by the first removal. */
  lemma OnlyLeadingSlash(m: string)
    requires m != [] && PathMatchLength(m) == 0 && '/' !in m[1..]
    ensures RemoveAll(m, PathMatchLength) == m
  {
    NoSlashNoPath(m[1..]);
    RemoveAllStep(m, PathMatchLength);
  }

  lemma PathsFirstPass(m: string)
    requires m == "/qat a.b.ts:1:2"
    ensures RemoveAll(m, PathMatchLength) == m
  {
    NoPathAtStart(m);
    assert '/' !in m[1..];
    OnlyLeadingSlash(m);
  }

  lemma FrameAtStart()
    ensures FrameMatchLength("at a.b.ts:1:2") == 6
  {
    var t := "at a.b.ts:1:2";
    RunOfOne(t[2..], IsSpace);
    RunOfOne(t[3..], IsWordChar);
    RunOfOne(t[5..], IsWordChar);
  }

  lemma NoFrameInLocation()
    ensures RemoveAll(".ts:1:2", FrameMatchLength) == ".ts:1:2"
  {
    NoLetterANoFrame(".ts:1:2");
  }

  lemma FramesPrefixFree(m: string)
    requires m == "/qat a.b.ts:1:2"
    ensures forall i :: 0 <= i < 2 ==> FrameMatchLength(m[i..]) == 0
  {
    assert FrameMatchLength(m[0..]) == 0;
    assert FrameMatchLength(m[1..]) == 0;
  }

  lemma FramesFirstPass(m: string)
    requires m == "/qat a.b.ts:1:2"
    ensures RemoveAll(m, FrameMatchLength) == "/q.ts:1:2"
  {
    assert m[2..] == "at a.b.ts:1:2";
    FrameAtStart();
    FramesPrefixFree(m);
    LocationTail(m);
    NoFrameInLocation();
    RemoveAllSplice(m, FrameMatchLength, 2, 6);
    FramesSpliceText(m);
  }

  lemma FramesSpliceText(m: string)
    requires m == "/qat a.b.ts:1:2"
    ensures m[..2] + m[8..] == "/q.ts:1:2"
  {
    assert m[..2] == "/q";
    LocationTail(m);
  }

  lemma LocationTail(m: string)
    requires m == "/qat a.b.ts:1:2"
    ensures m[8..] == ".ts:1:2"
  {
    assert |m[8..]| == 7;
  }

  lemma LocationLength(t: string)
    requires t == ".ts:1:2"
    ensures SourceLocationLength(t) == 7
  {
    RunOfOne(t[4..], IsDigit);
    assert Run(t[6..], IsDigit) == 1;
  }

  lemma PathAtStart(m: string)
    requires m == "/q.ts:1:2"
    ensures PathMatchLength(m) == 9
  {
    assert Run(m[1..], IsNotSpace) == 8;
    LocationLength(m[2..]);
    assert m[9..] == [];
    assert m[8..][0] == '2' && m[7..][0] == ':' && m[6..][0] == '1';
    assert m[5..][0] == ':' && m[4..][0] == 's' && m[3..][0] == 't';
  }

  /** A message that is one match from start to end is removed entirely. */
  lemma RemoveWholeMatch(s: string, matchLength: string -> nat)
    requires forall t :: matchLength(t) <= |t|
    requires s != [] && matchLength(s) == |s|
    ensures RemoveAll(s, matchLength) == []
  {
    assert s[|s|..] == [];
  }

  lemma PathsSecondPass(m: string)
    requires m == "/q.ts:1:2"
    ensures RemoveAll(m, PathMatchLength) == []
  {
    PathAtStart(m);
    RemoveWholeMatch(m, PathMatchLength);
  }

  lemma FirstPassShape(m: string, r: string)
    requires m == "/qat a.b.ts:1:2" && r == "/q.ts:1:2"
    ensures '\n' !in m && IsTrimmed(r)
  {
    assert m[0] == '/' && m[|m| - 1] == '2';
    assert r[0] == '/' && r[|r| - 1] == '2';
  }

  lemma SanitizeOnce(s: Sanitizer, m: string, r: string)
    requires s == Sanitizer(true, false)
    requires m == "/qat a.b.ts:1:2" && r == "/q.ts:1:2"
    ensures SanitizeErrorMessage(s, m) == r
  {
    PathsFirstPass(m);
    FramesFirstPass(m);
    FirstPassShape(m, r);
    SanitizeOneLine(s, m, m, r);
  }

  lemma SanitizeAgain(s: Sanitizer, m: string)
    requires s == Sanitizer(true, false) && m == "/q.ts:1:2"
    ensures SanitizeErrorMessage(s, m) == ""
  {
    PathsSecondPass(m);
    SanitizeOneLine(s, m, "", "");
  }

  /** With sanitization on, sanitizing twice can differ from sanitizing
      once: removing `at a.b` joins `/q` to `.ts:1:2` into a source
      location that a second pass removes. */
  lemma ActiveSanitizeNotIdempotent()
    ensures SanitizeErrorMessage(Sanitizer(true, false), "/qat a.b.ts:1:2") == "/q.ts:1:2"
    ensures SanitizeErrorMessage(Sanitizer(true, false), "/q.ts:1:2") == ""
  {
    SanitizeOnce(Sanitizer(true, false), "/qat a.b.ts:1:2", "/q.ts:1:2");
    SanitizeAgain(Sanitizer(true, false), "/q.ts:1:2");
  }
}
