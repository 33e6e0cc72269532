/**
 * The name under which `main` saves a generated image: the typed name,
 * stripped, or "generated_image" when nothing was typed; then only letters,
 * digits, `_` and `-` are kept, `rstrip` is applied, and ".png" is appended
 * (Project.py, lines 85-87).
 */
module SaveName {
  import opened PyText

  /** The name used when the user types nothing but whitespace. */
  const DefaultName: string := "generated_image"

  /** `c.isalnum() or c in ("_", "-")`, with `isalnum` on ASCII letters and digits. */
  predicate IsNameChar(c: char) {
    || 'a' <= c <= 'z'
    || 'A' <= c <= 'Z'
    || '0' <= c <= '9'
    || c == '_' || c == '-'
  }

  predicate AllNameChars(s: string) {
    forall i :: 0 <= i < |s| ==> IsNameChar(s[i])
  }

  /** `"".join(c for c in s if IsNameChar(c))`: the allowed characters of `s`, in order. */
  function KeepNameChars(s: string): (t: string)
    ensures |t| <= |s|
    ensures AllNameChars(t)
    ensures forall c :: c in t <==> c in s && IsNameChar(c)
  {
    if s == [] then []
    else (if IsNameChar(s[0]) then [s[0]] else []) + KeepNameChars(s[1..])
  }

  /** The filter works character by character, so it distributes over concatenation. */
  lemma {:induction false} KeepNameCharsAppend(s: string, u: string)
    ensures KeepNameChars(s + u) == KeepNameChars(s) + KeepNameChars(u)
  {
    if s == [] {
      assert s + u == u;
    } else {
      assert (s + u)[1..] == s[1..] + u;
      KeepNameCharsAppend(s[1..], u);
    }
  }

  /** A string made of allowed characters only passes the filter unchanged. */
  lemma {:induction false} KeepNameCharsOfAllowed(s: string)
    requires AllNameChars(s)
    ensures KeepNameChars(s) == s
  {
    if s != [] {
      KeepNameCharsOfAllowed(s[1..]);
    }
  }

  /** The default name is made of allowed characters, so the filter keeps all of it. */
  lemma DefaultNameKept()
    ensures AllNameChars(DefaultName) && KeepNameChars(DefaultName) == DefaultName
  {
    assert forall i :: 0 <= i < |DefaultName| ==> IsNameChar(DefaultName[i]);
    KeepNameCharsOfAllowed(DefaultName);
  }

  /** Filtering twice is filtering once. */
  lemma KeepNameCharsIdempotent(s: string)
    ensures KeepNameChars(KeepNameChars(s)) == KeepNameChars(s)
  {
    KeepNameCharsOfAllowed(KeepNameChars(s));
  }

  /** No allowed character is whitespace, so `rstrip` after the filter has nothing to cut. */
  lemma NameCharsHaveNoSpace(s: string)
    requires AllNameChars(s)
    ensures NoSpace(s) && TrimEnd(s) == s
  {
    forall i | 0 <= i < |s| ensures !IsSpace(s[i]) {
      NameCharNotSpace(s[i]);
    }
    TrimOfNoSpace(s);
  }

  /** Letters, digits, `_` and `-` are not whitespace. */
  lemma NameCharNotSpace(c: char)
    requires IsNameChar(c)
    ensures !IsSpace(c)
  {
  }

  /** Project.py line 85: `input().strip() or "generated_image"`. */
  function TypedOrDefault(raw: string): (s: string)
    ensures s != []
    ensures AllSpace(raw) ==> s == DefaultName
    ensures !AllSpace(raw) ==> s == Strip(raw)
  {
    if Strip(raw) != [] then Strip(raw) else DefaultName
  }

  /**
   * Project.py lines 85-86 as written: the default is chosen before the
   * filter runs, and the name is otherwise the allowed characters of what
   * was typed.
   */
  function FileNameAsWritten(raw: string): (name: string)
    ensures AllNameChars(name) && NoSpace(name)
    ensures AllSpace(raw) ==> name == DefaultName
    ensures !AllSpace(raw) ==> name == KeepNameChars(Strip(raw))
  {
    NameCharsHaveNoSpace(KeepNameChars(Strip(raw)));
    var kept := KeepNameChars(TypedOrDefault(raw));
    NameCharsHaveNoSpace(kept);
    DefaultNameKept();
    TrimEnd(kept)
  }

  /**
   * The name comes out empty exactly when something other than whitespace
   * was typed and none of it is an allowed character. The save path is then
   * ".png", which has no file extension to choose an image format by, so
   * saving fails and `main` reports the error instead of saving.
   */
  lemma FileNameAsWrittenEmpty(raw: string)
    ensures FileNameAsWritten(raw) == [] <==>
      !AllSpace(raw) && forall c :: c in Strip(raw) ==> !IsNameChar(c)
  {
    var kept := KeepNameChars(TypedOrDefault(raw));
    NameCharsHaveNoSpace(kept);
    if AllSpace(raw) {
      DefaultNameKept();
    } else {
      assert TypedOrDefault(raw) == Strip(raw);
    }
  }

  /** A name made only of punctuation ends up empty, so the image is not saved. */
  lemma QuestionMarksGiveEmptyName()
    ensures FileNameAsWritten("???") == []
  {
    assert !IsSpace('?');
    assert Strip("???") == "???" by { TrimOfNoSpace("???"); }
    FileNameAsWrittenEmpty("???");
  }

  /**
   * The evidently intended name: fall back to "generated_image" whenever the
   * filtered name would be empty, so the image is always saved under a
   * usable name.
   */
  function FileName(raw: string): (name: string)
    ensures name != [] && AllNameChars(name) && NoSpace(name)
    ensures FileNameAsWritten(raw) != [] ==> name == FileNameAsWritten(raw)
    ensures FileNameAsWritten(raw) == [] ==> name == DefaultName
  {
    var kept := KeepNameChars(Strip(raw));
    DefaultNameKept();
    NameCharsHaveNoSpace(kept);
    NameCharsHaveNoSpace(DefaultName);
    if kept != [] then
      assert !AllSpace(raw) && TypedOrDefault(raw) == Strip(raw);
      kept
    else
      assert AllSpace(raw) ==> Strip(raw) == [];
      DefaultName
  }
}
