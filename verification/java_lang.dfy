/**
  The small part of the Java platform the upload task leans on: references
  that may be null, the 32-bit `int`, `new Boolean(String)` and
  `java.io.File.getName()`.
 */
module JavaLang {

  /** A Java object reference that may be null. */
  datatype Nullable<+T> = Null | NonNull(value: T) {

    /** The referenced value, or `default` when the reference is null. */
    function OrElse(default: T): T {
      match this
      case NonNull(v) => v
      case Null => default
    }
  }

  /** Java's `int`. */
  newtype int32 = x: int | -0x8000_0000 <= x < 0x8000_0000

  /** The name separator of the (Unix) file system. */
  const Separator: char := '/'

  /** `Character.toUpperCase`, restricted to the ASCII letters. */
  function ToUpperCase(c: char): char {
    if 'a' <= c <= 'z' then (c as int - 32) as char else c
  }

  /** `Character.toLowerCase`, restricted to the ASCII letters. */
  function ToLowerCase(c: char): char {
    if 'A' <= c <= 'Z' then (c as int + 32) as char else c
  }

  /** The per-character test of `String.equalsIgnoreCase`. */
  predicate CharEqualsIgnoreCase(a: char, b: char) {
    || a == b
    || ToUpperCase(a) == ToUpperCase(b)
    || ToLowerCase(ToUpperCase(a)) == ToLowerCase(ToUpperCase(b))
  }

  /** `s.equalsIgnoreCase(other)` for a non-null `other`. */
  predicate EqualsIgnoreCase(s: string, other: string) {
    |s| == |other| && forall i :: 0 <= i < |s| ==> CharEqualsIgnoreCase(s[i], other[i])
  }

  /** Every way of writing "true" with upper- and lower-case letters. */
  const TrueSpellings: set<string> := {
    "true", "truE", "trUe", "trUE", "tRue", "tRuE", "tRUe", "tRUE",
    "True", "TruE", "TrUe", "TrUE", "TRue", "TRuE", "TRUe", "TRUE"
  }

  /** A character matches a lower-case letter, ignoring case, exactly when it is that letter in either case. */
  lemma CharMatchesLetter(c: char, letter: char)
    requires 'a' <= letter <= 'z'
    ensures CharEqualsIgnoreCase(c, letter) <==> c == letter || c == ToUpperCase(letter)
  {
  }

  /** `equalsIgnoreCase("true")` accepts exactly the sixteen spellings of "true". */
  lemma EqualsTrueIgnoringCase(v: string)
    ensures EqualsIgnoreCase(v, "true") <==> v in TrueSpellings
  {
    if EqualsIgnoreCase(v, "true") {
      CharMatchesLetter(v[0], 't');
      CharMatchesLetter(v[1], 'r');
      CharMatchesLetter(v[2], 'u');
      CharMatchesLetter(v[3], 'e');
      assert CharEqualsIgnoreCase(v[0], "true"[0]);
      assert CharEqualsIgnoreCase(v[1], "true"[1]);
      assert CharEqualsIgnoreCase(v[2], "true"[2]);
      assert CharEqualsIgnoreCase(v[3], "true"[3]);
      assert v == [v[0], v[1], v[2], v[3]];
    }
  }

  /** `new Boolean(s)`, that is `Boolean.parseBoolean(s)`: true exactly for a non-null "true" in any case. */
  function ParseBoolean(s: Nullable<string>): (b: bool)
    ensures b <==> s.NonNull? && s.value in TrueSpellings
  {
    match s
    case Null => false
    case NonNull(v) =>
      EqualsTrueIgnoringCase(v);
      EqualsIgnoreCase(v, "true")
  }

  /**
    `java.io.File.getName()`: the part of the path after its last separator,
    or the whole path when it has none.
   */
  function FileName(path: string): string {
    if |path| == 0 || path[|path| - 1] == Separator then ""
    else FileName(path[..|path| - 1]) + [path[|path| - 1]]
  }

  /**
    The name has no separator and is the path's tail, preceded in the path
    by a separator whenever it is not the whole path.
   */
  lemma {:induction false} FileNameIsLastName(path: string)
    ensures var name := FileName(path);
      && Separator !in name
      && |name| <= |path| && path[|path| - |name|..] == name
      && (|name| < |path| ==> path[|path| - |name| - 1] == Separator)
    decreases |path|
  {
    if |path| > 0 && path[|path| - 1] != Separator {
      var init := path[..|path| - 1];
      FileNameIsLastName(init);
      var name := FileName(init);
      assert path[|path| - |name| - 1..] == init[|init| - |name|..] + [path[|path| - 1]];
    }
  }

  /** Any path's name is determined by the two facts `FileName` promises: it has no separator and is the path's tail after one. */
  lemma FileNameUnique(path: string, name: string)
    requires Separator !in name
    requires |name| <= |path| && path[|path| - |name|..] == name
    requires |name| < |path| ==> path[|path| - |name| - 1] == Separator
    ensures FileName(path) == name
  {
    FileNameIsLastName(path);
  }

  /**
    Joining a directory and a plain, non-empty name, then taking the name,
    gives the name back. (`new File(dir, "")` keeps `dir`'s own path, so an
    empty child is not a child at all.)
   */
  lemma FileNameOfChild(directory: string, name: string)
    requires Separator !in name && name != ""
    ensures FileName(directory + [Separator] + name) == name
    ensures FileName(name) == name
  {
    var path := directory + [Separator] + name;
    assert path[|path| - |name|..] == name;
    assert path[|path| - |name| - 1] == Separator;
    FileNameUnique(path, name);
    FileNameUnique(name, name);
  }
}
