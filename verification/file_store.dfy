/**
 * A directory of JSON files, one per named record, keyed by the record's
 * name with the characters a file name may not hold replaced by '_'.
 * Serialization is taken to round-trip, so a file holds the record itself.
 */
module FileStore {
  import opened Basics

  /** The characters a Windows file name may not hold, in the order .NET lists them. */
  const InvalidFileNameChars: seq<char> :=
    ['"', '<', '>', '|'] + ControlChars(32) + [':', '*', '?', '\\', '/']

  /** The characters with codes 0 up to n - 1. */
  function ControlChars(n: nat): (r: seq<char>)
    requires n <= 32
    ensures |r| == n && forall i :: 0 <= i < n ==> r[i] as int == i
  {
    if n == 0 then [] else ControlChars(n - 1) + [(n - 1) as char]
  }

  function CharSet(cs: seq<char>): set<char> {
    set c | c in cs
  }

  /** Every character of `invalid` in `name` replaced by '_'. */
  function Sanitize(invalid: set<char>, name: string): (r: string)
    ensures |r| == |name|
    ensures forall i :: 0 <= i < |name| ==> r[i] == (if name[i] in invalid then '_' else name[i])
  {
    seq(|name|, i requires 0 <= i < |name| => if name[i] in invalid then '_' else name[i])
  }

  /** `string.Replace(c, r)`: every occurrence of one character replaced by another. */
  function Replace(s: string, c: char, r: char): (t: string)
    ensures |t| == |s|
    ensures forall i :: 0 <= i < |s| ==> t[i] == (if s[i] == c then r else s[i])
  {
    seq(|s|, i requires 0 <= i < |s| => if s[i] == c then r else s[i])
  }

  /** Replacing the invalid characters one at a time, as the services do, sanitizes the name. */
  method SanitizeFileName(invalid: seq<char>, name: string) returns (r: string)
    ensures r == Sanitize(CharSet(invalid), name)
  {
    r := name;
    var k := 0;
    while k < |invalid|
      invariant 0 <= k <= |invalid|
      invariant r == Sanitize(CharSet(invalid[..k]), name)
    {
      ReplaceAfterSanitize(CharSet(invalid[..k]), name, invalid[k]);
      assert CharSet(invalid[..k + 1]) == CharSet(invalid[..k]) + {invalid[k]} by {
        assert invalid[..k + 1] == invalid[..k] + [invalid[k]];
      }
      r := Replace(r, invalid[k], '_');
      k := k + 1;
    }
    assert invalid[..k] == invalid;
  }

  lemma ReplaceAfterSanitize(done: set<char>, name: string, c: char)
    ensures Replace(Sanitize(done, name), c, '_') == Sanitize(done + {c}, name)
  {
    var a := Replace(Sanitize(done, name), c, '_');
    var b := Sanitize(done + {c}, name);
    assert forall i :: 0 <= i < |name| ==> a[i] == b[i];
  }

  /** A sanitized name holds no invalid character, and sanitizing it again changes nothing. */
  lemma SanitizeIsClean(invalid: set<char>, name: string)
    requires '_' !in invalid
    ensures forall i :: 0 <= i < |name| ==> Sanitize(invalid, name)[i] !in invalid
    ensures Sanitize(invalid, Sanitize(invalid, name)) == Sanitize(invalid, name)
  {
  }

  /** A name without invalid characters is its own file-name stem. */
  lemma SanitizeKeepsCleanName(invalid: set<char>, name: string)
    requires forall i :: 0 <= i < |name| ==> name[i] !in invalid
    ensures Sanitize(invalid, name) == name
  {
  }

  function InvalidChars(): set<char> {
    CharSet(InvalidFileNameChars)
  }

  lemma UnderscoreIsValid()
    ensures '_' !in InvalidChars()
  {
    PrintableIsValid('_');
  }

  /** A character from the space upwards that is none of the nine reserved ones is valid. */
  lemma PrintableIsValid(c: char)
    requires c as int >= 32
    requires c !in {'"', '<', '>', '|', ':', '*', '?', '\\', '/'}
    ensures c !in InvalidChars()
  {
    var cs := InvalidFileNameChars;
    var ctl := ControlChars(32);
    assert cs == ['"', '<', '>', '|'] + ctl + [':', '*', '?', '\\', '/'];
    forall i | 0 <= i < |cs|
      ensures cs[i] != c
    {
      if 4 <= i < 36 {
        assert cs[i] == ctl[i - 4];
      }
    }
  }

  /** Names that differ only in invalid characters share a file. */
  lemma DistinctNamesCanCollide()
    ensures Sanitize(InvalidChars(), "a:b") == Sanitize(InvalidChars(), "a/b") == "a_b"
  {
    assert ':' == InvalidFileNameChars[36];
    assert '/' == InvalidFileNameChars[40];
    UnderscoreIsValid();
    PrintableIsValid('a');
    PrintableIsValid('b');
  }

  // ------------------------------------------------------------ the directory

  const Extension: string := ".json"

  /** The file a record of this name lives in. */
  function FileName(name: string): string {
    Sanitize(InvalidChars(), name) + Extension
  }

  predicate HasExtension(f: string) {
    |f| >= |Extension| && f[|f| - |Extension|..] == Extension
  }

  /** `Path.GetFileNameWithoutExtension` of a ".json" file. */
  function Stem(f: string): string
    requires HasExtension(f)
  {
    f[..|f| - |Extension|]
  }

  datatype IoError = DirectoryNotFound

  /** The directory (which may have been removed behind the program's back) and its files. */
  datatype Store<T> = Store(directoryExists: bool, files: map<string, T>)

  /** No files without a directory, and no file name holds an invalid character. */
  predicate Valid<T>(st: Store<T>) {
    && (!st.directoryExists ==> st.files == map[])
    && (forall f | f in st.files :: forall i :: 0 <= i < |f| ==> f[i] !in InvalidChars())
  }

  function Save<T>(st: Store<T>, name: string, v: T): (r: Result<Store<T>, IoError>)
    ensures r.Ok? <==> st.directoryExists
    ensures r.Ok? ==> Load(r.value, name) == Some(v)
    ensures r.Ok? ==> forall other :: FileName(other) != FileName(name) ==> Load(r.value, other) == Load(st, other)
  {
    if !st.directoryExists then Err(DirectoryNotFound)
    else Ok(st.(files := st.files[FileName(name) := v]))
  }

  /** The record in the file for this name; None when there is no such file. */
  function Load<T>(st: Store<T>, name: string): (r: Option<T>)
    ensures r.Some? <==> FileName(name) in st.files
  {
    if FileName(name) in st.files then Some(st.files[FileName(name)]) else None
  }

  function Delete<T>(st: Store<T>, name: string): (r: Store<T>)
    ensures Load(r, name) == None
    ensures forall other :: FileName(other) != FileName(name) ==> Load(r, other) == Load(st, other)
  {
    if FileName(name) in st.files then st.(files := st.files - {FileName(name)}) else st
  }

  /** The stems of the ".json" files; nothing when the directory is gone. */
  function Names<T>(st: Store<T>): (r: set<string>)
    ensures !st.directoryExists ==> r == {}
  {
    if !st.directoryExists then {} else set f | f in st.files && HasExtension(f) :: Stem(f)
  }

  lemma StemOfFileName(name: string)
    ensures HasExtension(FileName(name)) && Stem(FileName(name)) == Sanitize(InvalidChars(), name)
  {
  }

  lemma SanitizedStem(f: string)
    requires HasExtension(f)
    requires forall i :: 0 <= i < |f| ==> f[i] !in InvalidChars()
    ensures FileName(Stem(f)) == f
  {
    SanitizeKeepsCleanName(InvalidChars(), Stem(f));
    assert f == Stem(f) + Extension;
  }

  /** Operations keep the directory valid. */
  lemma OperationsKeepValid<T>(st: Store<T>, name: string, v: T)
    requires Valid(st)
    ensures Save(st, name, v).Ok? ==> Valid(Save(st, name, v).value)
    ensures Valid(Delete(st, name))
  {
    FileNameIsClean(name);
  }

  /** A record's file name holds no invalid character: the stem is sanitized and the extension is clean. */
  lemma {:induction false} FileNameIsClean(name: string)
    ensures forall i :: 0 <= i < |FileName(name)| ==> FileName(name)[i] !in InvalidChars()
  {
    UnderscoreIsValid();
    var stem := Sanitize(InvalidChars(), name);
    SanitizeIsClean(InvalidChars(), name);
    assert forall i :: 0 <= i < |Extension| ==> Extension[i] !in InvalidChars() by {
      PrintableIsValid('.');
      PrintableIsValid('j');
      PrintableIsValid('s');
      PrintableIsValid('o');
      PrintableIsValid('n');
    }
    CleanConcat(InvalidChars(), stem, Extension);
  }

  lemma CleanConcat(invalid: set<char>, a: string, b: string)
    requires forall i :: 0 <= i < |a| ==> a[i] !in invalid
    requires forall i :: 0 <= i < |b| ==> b[i] !in invalid
    ensures forall i :: 0 <= i < |a + b| ==> (a + b)[i] !in invalid
  {
    forall i | 0 <= i < |a + b|
      ensures (a + b)[i] !in invalid
    {
      if i >= |a| {
        assert (a + b)[i] == b[i - |a|];
      }
    }
  }

  /** Every listed name loads, and a saved name is listed, sanitized. */
  lemma NamesAreLoadable<T>(st: Store<T>, name: string, v: T)
    requires Valid(st)
    ensures forall n :: n in Names(st) ==> Load(st, n).Some?
    ensures Save(st, name, v).Ok? ==> Names(Save(st, name, v).value) == Names(st) + {Sanitize(InvalidChars(), name)}
  {
    forall n | n in Names(st)
      ensures Load(st, n).Some?
    {
      var f :| f in st.files && HasExtension(f) && Stem(f) == n;
      SanitizedStem(f);
    }
    if Save(st, name, v).Ok? {
      StemOfFileName(name);
      var st' := Save(st, name, v).value;
      assert st'.files.Keys == st.files.Keys + {FileName(name)};
    }
  }

  /** After a delete the sanitized name is no longer listed; other names stay. */
  lemma {:induction false} DeleteUnlists<T>(st: Store<T>, name: string)
    requires Valid(st)
    ensures Names(Delete(st, name)) == Names(st) - {Sanitize(InvalidChars(), name)}
  {
    StemOfFileName(name);
    var st' := Delete(st, name);
    forall n | n in Names(st) && n != Sanitize(InvalidChars(), name)
      ensures n in Names(st')
    {
      var f :| f in st.files && HasExtension(f) && Stem(f) == n;
      assert f != FileName(name);
      assert f in st'.files;
    }
    forall n | n in Names(st')
      ensures n in Names(st) && n != Sanitize(InvalidChars(), name)
    {
      var f :| f in st'.files && HasExtension(f) && Stem(f) == n;
      assert f in st.files && f != FileName(name);
      OtherStem(f, name);
    }
  }

  /** A ".json" file other than a name's own file has a stem other than the sanitized name. */
  lemma OtherStem(f: string, name: string)
    requires HasExtension(f) && f != FileName(name)
    ensures Stem(f) != Sanitize(InvalidChars(), name)
  {
    assert f == Stem(f) + Extension;
  }

  /** Saving lists the sanitized name; deleting it afterwards unlists it. */
  lemma SaveThenDelete<T>(st: Store<T>, name: string, v: T)
    requires Valid(st) && st.directoryExists
    ensures Save(st, name, v).Ok? && Valid(Save(st, name, v).value)
    ensures Names(Save(st, name, v).value) == Names(st) + {Sanitize(InvalidChars(), name)}
    ensures Names(Delete(Save(st, name, v).value, name)) == Names(st) - {Sanitize(InvalidChars(), name)}
  {
    NamesAreLoadable(st, name, v);
    OperationsKeepValid(st, name, v);
    DeleteUnlists(Save(st, name, v).value, name);
  }

}
