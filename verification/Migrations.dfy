/**
 Merging the library's, the modules' and the app's migrations into one history. A built-in migration is
 named after its version; an app file carries its version in its name.
 */
module Migrations {
  import opened Basics
  import opened Strings
  import opened Ordering

  const MAX_INT64: int := 0x7fff_ffff_ffff_ffff

  type Int64 = x: int | -MAX_INT64 - 1 <= x <= MAX_INT64

  // ---- File names ----

  predicate IsDigit(c: char) { '0' <= c <= '9' }

  predicate AllDigits(s: string) { forall i | 0 <= i < |s| :: IsDigit(s[i]) }

  /** The number a run of digits denotes. */
  function Value(digits: string): nat
    requires AllDigits(digits)
  {
    if digits == [] then 0 else 10 * Value(digits[..|digits| - 1]) + (digits[|digits| - 1] - '0') as nat
  }

  /** Where the first underscore is, if any. */
  function FirstUnderscore(s: string): (i: nat)
    ensures i <= |s| && (i < |s| ==> s[i] == '_') && '_' !in s[..i]
  {
    if s == [] || s[0] == '_' then 0
    else
      var i := 1 + FirstUnderscore(s[1..]);
      assert s[..i] == [s[0]] + s[1..][..i - 1];
      i
  }

  /** parseMigrationFile: a positive 64-bit number, an underscore, a name and .sql, in the root. */
  function ParseFile(name: string): Option<int> {
    if |name| < 4 || name[|name| - 4..] != ".sql" then None
    else
      var base := name[..|name| - 4];
      var cut := FirstUnderscore(base);
      if '/' in base || '\\' in base then None
      else if cut == |base| || cut + 1 == |base| || cut == 0 then None
      else if !AllDigits(base[..cut]) then None
      else
        var version := Value(base[..cut]);
        if version > MAX_INT64 || version <= 0 then None else Some(version)
  }

  /** Lowercase snake_case, as migration names must be. */
  predicate ValidName(name: string) {
    && name != [] && 'a' <= name[0] <= 'z'
    && forall c | c in name :: 'a' <= c <= 'z' || IsDigit(c) || c == '_'
  }

  function FileName(version: nat, name: string): string { Decimal(version) + "_" + name + ".sql" }

  lemma {:induction false} DecimalValue(n: nat)
    ensures AllDigits(Decimal(n)) && Value(Decimal(n)) == n
  {
    if n >= 10 {
      DecimalValue(n / 10);
      var d := Decimal(n);
      assert d[..|d| - 1] == Decimal(n / 10);
    } else {
      assert Decimal(n)[..0] == [];
    }
  }

  lemma FirstUnderscoreIs(s: string, i: nat)
    requires i < |s| && s[i] == '_' && '_' !in s[..i]
    ensures FirstUnderscore(s) == i
  {
    var j := FirstUnderscore(s);
    assert forall k | 0 <= k < i :: s[..i][k] == s[k];
    assert forall k | 0 <= k < j :: s[..j][k] == s[k];
  }

  /** A built-in migration's file name parses back to its version. */
  lemma NameParsesBack(version: nat, name: string)
    requires 0 < version <= MAX_INT64 && ValidName(name)
    ensures ParseFile(FileName(version, name)) == Some(version)
  {
    var digits := Decimal(version);
    DecimalValue(version);
    var file := FileName(version, name);
    var base := digits + "_" + name;
    assert file == base + ".sql" && file[..|file| - 4] == base && file[|file| - 4..] == ".sql";
    assert base[..|digits|] == digits;
    assert '_' !in digits;
    FirstUnderscoreIs(base, |digits|);
    assert forall c | c in base :: c in digits || c == '_' || c in name;
  }

  function Zeros(k: nat): string { seq(k, _ => '0') }

  lemma {:induction false} ZeroesOnly(digits: string)
    requires AllDigits(digits) && Value(digits) == 0
    ensures digits == Zeros(|digits|)
  {
    if digits != [] {
      var before := digits[..|digits| - 1];
      ZeroesOnly(before);
      assert digits == before + ['0'];
      assert Zeros(|digits|) == Zeros(|before|) + ['0'];
    }
  }

  /** Digits that denote a number are its decimals, after any zeros. */
  lemma {:induction false} DigitsAreDecimal(digits: string) returns (k: nat)
    requires AllDigits(digits) && Value(digits) > 0
    ensures digits == Zeros(k) + Decimal(Value(digits))
  {
    var before, last := digits[..|digits| - 1], digits[|digits| - 1];
    assert digits == before + [last];
    if Value(before) == 0 {
      ZeroesOnly(before);
      k := |before|;
    } else {
      k := DigitsAreDecimal(before);
      DecimalMore(Value(before), last);
    }
  }

  lemma DecimalMore(n: nat, c: char)
    requires n > 0 && IsDigit(c)
    ensures Decimal(10 * n + (c - '0') as nat) == Decimal(n) + [c]
  {
    var d := (c - '0') as nat;
    assert (10 * n + d) / 10 == n && (10 * n + d) % 10 == d;
  }

  lemma {:induction false} ZerosDenoteNothing(k: nat, digits: string)
    requires AllDigits(digits)
    ensures AllDigits(Zeros(k) + digits) && Value(Zeros(k) + digits) == Value(digits)
  {
    var all := Zeros(k) + digits;
    if digits != [] {
      var before := digits[..|digits| - 1];
      ZerosDenoteNothing(k, before);
      assert all[..|all| - 1] == Zeros(k) + before;
    } else if k > 0 {
      assert all[..k - 1] == Zeros(k - 1) + digits;
      ZerosDenoteNothing(k - 1, digits);
    }
  }

  /** A name of the documented shape: the version, maybe after zeros, an underscore, a name in the root, and .sql. */
  predicate NamesVersion(file: string, version: nat, k: nat, name: string) {
    && 0 < version <= 0x7fff_ffff_ffff_ffff
    && name != [] && '/' !in name && '\\' !in name
    && file == Zeros(k) + Decimal(version) + "_" + name + ".sql"
  }

  lemma CutAtUnderscore(base: string, digits: string, name: string)
    requires AllDigits(digits) && base == digits + "_" + name
    ensures FirstUnderscore(base) == |digits| && base[..|digits|] == digits && base[|digits| + 1..] == name
    ensures forall c :: c in base <==> c in digits || c == '_' || c in name
  {
    assert base[..|digits|] == digits;
    FirstUnderscoreIs(base, |digits|);
  }

  /** Every name of that shape is parsed to its version. */
  lemma NamedIsParsed(file: string, version: nat, k: nat, name: string)
    requires NamesVersion(file, version, k, name)
    ensures ParseFile(file) == Some(version)
  {
    var digits := Zeros(k) + Decimal(version);
    DecimalValue(version);
    ZerosDenoteNothing(k, Decimal(version));
    var base := digits + "_" + name;
    CutAtUnderscore(base, digits, name);
    assert file == base + ".sql" && file[..|file| - 4] == base && file[|file| - 4..] == ".sql";
  }

  /** And nothing else is. */
  lemma ParsedIsNamed(file: string) returns (k: nat, name: string)
    requires ParseFile(file).Some?
    ensures ParseFile(file).value > 0 && NamesVersion(file, ParseFile(file).value, k, name)
  {
    var base := file[..|file| - 4];
    var cut := FirstUnderscore(base);
    name := base[cut + 1..];
    k := DigitsAreDecimal(base[..cut]);
    assert forall c | c in name :: c in base;
    assert base == base[..cut] + "_" + name;
    assert file == base + ".sql";
  }

  // ---- The merge ----

  /** A migration of the library or a module; None when its file can't be read. */
  datatype Migration = Migration(version: Int64, name: string, content: Option<Bytes>)

  /** An entry of the app's migrations directory. */
  datatype Entry = Entry(name: string, isDir: bool, content: Option<Bytes>)

  predicate BuiltinOk(m: Migration) {
    m.version > 0 && ValidName(m.name) && m.content.Some?
  }

  predicate IsSql(e: Entry) { !e.isDir && |e.name| >= 4 && e.name[|e.name| - 4..] == ".sql" }

  predicate EntryOk(e: Entry) { ParseFile(e.name).Some? && e.content.Some? }

  /** No two built-in migrations share a version. */
  predicate DistinctVersions(ms: seq<Migration>) {
    forall i, j | 0 <= i < j < |ms| :: ms[i].version != ms[j].version
  }

  /** No two app migrations share a version. */
  predicate DistinctEntries(es: seq<Entry>) {
    forall i, j | 0 <= i < j < |es| && IsSql(es[i]) && IsSql(es[j]) :: ParseFile(es[i].name) != ParseFile(es[j].name)
  }

  /** An app file with a built-in version is a copy of it. */
  predicate Copies(e: Entry, ms: seq<Migration>) {
    forall m | m in ms :: ParseFile(e.name) == Some(m.version) ==> e.content == m.content
  }

  predicate BuiltIn(version: int, ms: seq<Migration>) { exists m | m in ms :: m.version == version }

  /** When a merge succeeds: said without any order. */
  predicate Mergeable(ms: seq<Migration>, es: seq<Entry>) {
    && (forall m | m in ms :: BuiltinOk(m))
    && DistinctVersions(ms)
    && (forall e | e in es && IsSql(e) :: EntryOk(e) && Copies(e, ms))
    && DistinctEntries(es)
  }

  /** One file of the merged history. */
  predicate MergedFile(ms: seq<Migration>, es: seq<Entry>, file: string, content: Bytes) {
    || (exists m | m in ms :: BuiltinOk(m) && file == FileName(m.version, m.name) && content == m.content.value)
    || (exists e | e in es :: IsSql(e) && EntryOk(e) && !BuiltIn(ParseFile(e.name).value, ms) && file == e.name && content == e.content.value)
  }

  /** A file system that holds exactly the merged files. */
  ghost predicate IsMerge(ms: seq<Migration>, es: seq<Entry>, files: map<string, Bytes>) {
    && (forall f | f in files :: MergedFile(ms, es, f, files[f]))
    && (forall f, c | MergedFile(ms, es, f, c) :: f in files && files[f] == c)
  }

  predicate HasVersion(ms: seq<Migration>, es: seq<Entry>, version: int) {
    BuiltIn(version, ms) || exists e | e in es :: IsSql(e) && ParseFile(e.name) == Some(version)
  }

  /** Every merged file's name parses to a version of the history. */
  lemma FilesHaveVersions(ms: seq<Migration>, es: seq<Entry>, file: string, content: Bytes)
    requires MergedFile(ms, es, file, content)
    ensures ParseFile(file).Some? && HasVersion(ms, es, ParseFile(file).value)
  {
    if m :| m in ms && BuiltinOk(m) && file == FileName(m.version, m.name) && content == m.content.value {
      NameParsesBack(m.version, m.name);
    }
  }

  /** The file of a version. */
  lemma VersionHasFile(ms: seq<Migration>, es: seq<Entry>, version: int) returns (file: string, content: Bytes)
    requires Mergeable(ms, es) && HasVersion(ms, es, version)
    ensures MergedFile(ms, es, file, content) && ParseFile(file) == Some(version)
  {
    if BuiltIn(version, ms) {
      var m :| m in ms && m.version == version;
      NameParsesBack(m.version, m.name);
      file, content := FileName(m.version, m.name), m.content.value;
    } else {
      var e :| e in es && IsSql(e) && ParseFile(e.name) == Some(version);
      file, content := e.name, e.content.value;
    }
  }

  /** One version, one file: two merged files whose names parse to the same version are the same file. */
  lemma OneFilePerVersion(ms: seq<Migration>, es: seq<Entry>, f: string, c: Bytes, f': string, c': Bytes)
    requires Mergeable(ms, es)
    requires MergedFile(ms, es, f, c) && MergedFile(ms, es, f', c') && ParseFile(f) == ParseFile(f')
    ensures f == f' && c == c'
  {
    var builtin := BuiltIn(ParseVersion(ms, es, f, c), ms);
    if builtin {
      var m := BuiltinOf(ms, es, f, c);
      var m' := BuiltinOf(ms, es, f', c');
      SameVersion(ms, m, m');
    } else {
      var e := EntryOf(ms, es, f, c);
      var e' := EntryOf(ms, es, f', c');
      SameEntry(es, e, e');
    }
  }

  function ParseVersion(ms: seq<Migration>, es: seq<Entry>, f: string, c: Bytes): int
    requires MergedFile(ms, es, f, c)
  {
    FilesHaveVersions(ms, es, f, c);
    ParseFile(f).value
  }

  lemma BuiltinOf(ms: seq<Migration>, es: seq<Entry>, f: string, c: Bytes) returns (m: Migration)
    requires MergedFile(ms, es, f, c) && BuiltIn(ParseVersion(ms, es, f, c), ms)
    ensures m in ms && BuiltinOk(m) && f == FileName(m.version, m.name) && c == m.content.value && ParseFile(f) == Some(m.version)
  {
    m :| m in ms && BuiltinOk(m) && f == FileName(m.version, m.name) && c == m.content.value;
    NameParsesBack(m.version, m.name);
  }

  lemma EntryOf(ms: seq<Migration>, es: seq<Entry>, f: string, c: Bytes) returns (e: Entry)
    requires MergedFile(ms, es, f, c) && !BuiltIn(ParseVersion(ms, es, f, c), ms)
    ensures e in es && IsSql(e) && EntryOk(e) && f == e.name && c == e.content.value
  {
    if m :| m in ms && BuiltinOk(m) && f == FileName(m.version, m.name) && c == m.content.value {
      NameParsesBack(m.version, m.name);
    }
    e :| e in es && IsSql(e) && EntryOk(e) && f == e.name && c == e.content.value;
  }

  lemma SameVersion(ms: seq<Migration>, m: Migration, m': Migration)
    requires DistinctVersions(ms) && m in ms && m' in ms && m.version == m'.version
    ensures m == m'
  {
    var i :| 0 <= i < |ms| && ms[i] == m;
    var j :| 0 <= j < |ms| && ms[j] == m';
  }

  lemma SameEntry(es: seq<Entry>, e: Entry, e': Entry)
    requires DistinctEntries(es) && e in es && e' in es && IsSql(e) && IsSql(e') && ParseFile(e.name) == ParseFile(e'.name)
    ensures e == e'
  {
    var i :| 0 <= i < |es| && es[i] == e;
    var j :| 0 <= j < |es| && es[j] == e';
  }

  /** The order of modules and entries changes neither success nor result. */
  lemma OrderIsIrrelevant(
    ms: seq<Migration>, es: seq<Entry>, ms': seq<Migration>, es': seq<Entry>, files: map<string, Bytes>, files': map<string, Bytes>)
    requires multiset(ms) == multiset(ms') && multiset(es) == multiset(es')
    ensures Mergeable(ms, es) <==> Mergeable(ms', es')
    ensures IsMerge(ms, es, files) && IsMerge(ms', es', files') ==> files == files'
  {
    SameMembers(ms, ms');
    SameMembers(es, es');
    MergeableAlike(ms, es, ms', es');
    MergeableAlike(ms', es', ms, es);
    if IsMerge(ms, es, files) && IsMerge(ms', es', files') {
      SameFiles(ms, es, ms', es', files, files');
      SameFiles(ms', es', ms, es, files', files);
    }
  }

  lemma MergeableAlike(ms: seq<Migration>, es: seq<Entry>, ms': seq<Migration>, es': seq<Entry>)
    requires multiset(ms) == multiset(ms') && multiset(es) == multiset(es')
    ensures Mergeable(ms, es) ==> Mergeable(ms', es')
  {
    SameMembers(ms, ms');
    SameMembers(es, es');
    DistinctAlike(ms, ms');
    EntriesAlike(es, es');
  }

  lemma SameFiles(
    ms: seq<Migration>, es: seq<Entry>, ms': seq<Migration>, es': seq<Entry>, files: map<string, Bytes>, files': map<string, Bytes>)
    requires (forall m :: m in ms <==> m in ms') && (forall e :: e in es <==> e in es')
    requires IsMerge(ms, es, files) && IsMerge(ms', es', files')
    ensures forall f | f in files :: f in files' && files'[f] == files[f]
  {
    assert forall v :: BuiltIn(v, ms) <==> BuiltIn(v, ms');
    forall f | f in files
      ensures f in files' && files'[f] == files[f]
    {
      assert MergedFile(ms, es, f, files[f]);
      assert MergedFile(ms', es', f, files[f]);
    }
  }

  lemma SameMembers<T>(a: seq<T>, b: seq<T>)
    requires multiset(a) == multiset(b)
    ensures forall x :: x in a <==> x in b
  {
    forall x
      ensures x in a <==> x in b
    {
      assert x in a <==> x in multiset(a);
      assert x in b <==> x in multiset(b);
    }
  }

  lemma CountTwice<T>(s: seq<T>, i: nat, j: nat)
    requires i < j < |s| && s[i] == s[j]
    ensures multiset(s)[s[i]] >= 2
  {
    assert s == s[..j] + [s[j]] + s[j + 1..];
    assert s[i] == s[..j][i] && s[i] in multiset(s[..j]);
  }

  lemma {:induction false} TwoPlaces<T>(s: seq<T>, x: T) returns (i: nat, j: nat)
    requires multiset(s)[x] >= 2
    ensures i < j < |s| && s[i] == x && s[j] == x
  {
    var last := s[|s| - 1];
    var before := s[..|s| - 1];
    assert s == before + [last];
    if last == x {
      assert x in multiset(before);
      i :| 0 <= i < |before| && before[i] == x;
      j := |s| - 1;
    } else {
      i, j := TwoPlaces(before, x);
    }
  }

  lemma DistinctAlike(a: seq<Migration>, b: seq<Migration>)
    requires multiset(a) == multiset(b)
    ensures DistinctVersions(a) ==> DistinctVersions(b)
  {
    if DistinctVersions(a) {
      SameMembers(a, b);
      forall i, j | 0 <= i < j < |b|
        ensures b[i].version != b[j].version
      {
        if b[i].version == b[j].version {
          assert b[i] in a && b[j] in a;
          SameVersion(a, b[i], b[j]);
          CountTwice(b, i, j);
          var x, y := TwoPlaces(a, b[i]);
        }
      }
    }
  }

  lemma EntriesAlike(a: seq<Entry>, b: seq<Entry>)
    requires multiset(a) == multiset(b)
    ensures DistinctEntries(a) ==> DistinctEntries(b)
  {
    if DistinctEntries(a) {
      SameMembers(a, b);
      forall i, j | 0 <= i < j < |b| && IsSql(b[i]) && IsSql(b[j])
        ensures ParseFile(b[i].name) != ParseFile(b[j].name)
      {
        if ParseFile(b[i].name) == ParseFile(b[j].name) {
          assert b[i] in a && b[j] in a;
          SameEntry(a, b[i], b[j]);
          CountTwice(b, i, j);
          var x, y := TwoPlaces(a, b[i]);
        }
      }
    }
  }

  // ---- mergeMigrations ----

  datatype Source = Source(file: string, content: Bytes)

  predicate HoldsBuiltin(byVersion: map<int, Source>, m: Migration) {
    && BuiltinOk(m) && m.version in byVersion
    && byVersion[m.version] == Source(FileName(m.version, m.name), m.content.value)
  }

  predicate HoldsEntry(byVersion: map<int, Source>, e: Entry) {
    && EntryOk(e) && ParseFile(e.name).value in byVersion
    && byVersion[ParseFile(e.name).value] == Source(e.name, e.content.value)
  }

  predicate BuiltinsOk(ms: seq<Migration>) { (forall m | m in ms :: BuiltinOk(m)) && DistinctVersions(ms) }

  /** Exactly the built-in migrations, each under its version. */
  ghost predicate HoldsBuiltins(byVersion: map<int, Source>, ms: seq<Migration>) {
    && (forall v :: v in byVersion <==> BuiltIn(v, ms))
    && (forall m | m in ms :: HoldsBuiltin(byVersion, m))
  }

  lemma BuiltinsExtend(ms: seq<Migration>, m: Migration)
    ensures BuiltinsOk(ms + [m]) <==> BuiltinsOk(ms) && BuiltinOk(m) && !BuiltIn(m.version, ms)
  {
    var more := ms + [m];
    assert forall x :: x in more <==> x in ms || x == m;
    assert forall k | 0 <= k < |ms| :: more[k] == ms[k] && ms[k] in ms;
    assert DistinctVersions(more) ==> forall k | 0 <= k < |ms| :: more[k].version != more[|ms|].version;
  }

  lemma HoldsMore(byVersion: map<int, Source>, ms: seq<Migration>, m: Migration)
    requires HoldsBuiltins(byVersion, ms) && BuiltinOk(m) && m.version !in byVersion
    ensures HoldsBuiltins(byVersion[m.version := Source(FileName(m.version, m.name), m.content.value)], ms + [m])
  {
    var more := byVersion[m.version := Source(FileName(m.version, m.name), m.content.value)];
    assert forall x :: x in ms + [m] <==> x in ms || x == m;
    assert forall v :: BuiltIn(v, ms + [m]) <==> BuiltIn(v, ms) || v == m.version;
    forall x | x in ms ensures HoldsBuiltin(more, x) {
      assert HoldsBuiltin(byVersion, x) && BuiltIn(x.version, ms);
    }
  }

  /** addBuiltin for every migration in turn; errors counts what was reported. */
  method AddBuiltins(ms: seq<Migration>) returns (byVersion: map<int, Source>, errors: nat)
    ensures errors == 0 <==> (forall m | m in ms :: BuiltinOk(m)) && DistinctVersions(ms)
    ensures errors == 0 ==>
      && (forall v :: v in byVersion <==> BuiltIn(v, ms))
      && (forall m | m in ms :: HoldsBuiltin(byVersion, m))
  {
    byVersion, errors := map[], 0;
    for i := 0 to |ms|
      invariant errors == 0 <==> BuiltinsOk(ms[..i])
      invariant errors == 0 ==> HoldsBuiltins(byVersion, ms[..i])
    {
      var m := ms[i];
      BuiltinsExtend(ms[..i], m);
      assert ms[..i + 1] == ms[..i] + [m];
      if m.version <= 0 || !ValidName(m.name) || m.content.None? {
        errors := errors + 1;
      } else if m.version in byVersion {
        errors := errors + 1;
      } else {
        if errors == 0 {
          HoldsMore(byVersion, ms[..i], m);
        }
        byVersion := byVersion[m.version := Source(FileName(m.version, m.name), m.content.value)];
      }
    }
    assert ms[..|ms|] == ms;
  }

  /** What the app's entries add to the built-in migrations. */
  ghost predicate Merged(ms: seq<Migration>, es: seq<Entry>, byVersion: map<int, Source>) {
    && (forall v :: v in byVersion <==> HasVersion(ms, es, v))
    && (forall m | m in ms :: HoldsBuiltin(byVersion, m))
    && (forall e | e in es && IsSql(e) && EntryOk(e) && !BuiltIn(ParseFile(e.name).value, ms) :: HoldsEntry(byVersion, e))
  }

  predicate EntriesOk(ms: seq<Migration>, es: seq<Entry>) {
    (forall e | e in es && IsSql(e) :: EntryOk(e) && Copies(e, ms)) && DistinctEntries(es)
  }

  lemma MergedSkips(ms: seq<Migration>, es: seq<Entry>, e: Entry, byVersion: map<int, Source>)
    requires Merged(ms, es, byVersion)
    requires !IsSql(e) || (EntryOk(e) && BuiltIn(ParseFile(e.name).value, ms))
    ensures Merged(ms, es + [e], byVersion)
  {
    assert forall x :: x in es + [e] <==> x in es || x == e;
    forall v ensures HasVersion(ms, es + [e], v) <==> HasVersion(ms, es, v) { }
  }

  lemma MergedAdds(ms: seq<Migration>, es: seq<Entry>, e: Entry, byVersion: map<int, Source>)
    requires Merged(ms, es, byVersion) && EntriesOk(ms, es)
    requires IsSql(e) && EntryOk(e) && !HasVersion(ms, es, ParseFile(e.name).value)
    ensures Merged(ms, es + [e], byVersion[ParseFile(e.name).value := Source(e.name, e.content.value)])
  {
    var v := ParseFile(e.name).value;
    var more := byVersion[v := Source(e.name, e.content.value)];
    assert forall x :: x in es + [e] <==> x in es || x == e;
    forall u ensures u in more <==> HasVersion(ms, es + [e], u) { }
    forall m | m in ms ensures HoldsBuiltin(more, m) { assert HoldsBuiltin(byVersion, m); }
    forall x | x in es + [e] && IsSql(x) && EntryOk(x) && !BuiltIn(ParseFile(x.name).value, ms)
      ensures HoldsEntry(more, x)
    {
      if x != e { assert HoldsEntry(byVersion, x) && HasVersion(ms, es, ParseFile(x.name).value); }
    }
  }

  lemma EntriesOkExtends(ms: seq<Migration>, es: seq<Entry>, e: Entry)
    ensures EntriesOk(ms, es + [e]) <==>
      && EntriesOk(ms, es)
      && (IsSql(e) ==> EntryOk(e) && Copies(e, ms) && forall x | x in es && IsSql(x) :: ParseFile(x.name) != ParseFile(e.name))
  {
    var more := es + [e];
    assert forall x :: x in more <==> x in es || x == e;
    if EntriesOk(ms, more) {
      assert more[..|es|] == es;
      forall x | x in es && IsSql(x) && IsSql(e)
        ensures ParseFile(x.name) != ParseFile(e.name)
      {
        var i :| 0 <= i < |es| && es[i] == x;
        assert more[i] == x && more[|es|] == e;
      }
      forall i, j | 0 <= i < j < |es| && IsSql(es[i]) && IsSql(es[j])
        ensures ParseFile(es[i].name) != ParseFile(es[j].name)
      {
        assert more[i] == es[i] && more[j] == es[j];
      }
    }
    if EntriesOk(ms, es) && (IsSql(e) ==> EntryOk(e) && Copies(e, ms) && forall x | x in es && IsSql(x) :: ParseFile(x.name) != ParseFile(e.name)) {
      forall i, j | 0 <= i < j < |more| && IsSql(more[i]) && IsSql(more[j])
        ensures ParseFile(more[i].name) != ParseFile(more[j].name)
      {
        if j == |es| { assert more[i] == es[i] && es[i] in es; }
      }
    }
  }

  /** A version already held is a built-in one, and the content held for it is what an app copy must have. */
  lemma Absorbed(ms: seq<Migration>, es: seq<Entry>, e: Entry, byVersion: map<int, Source>)
    requires DistinctVersions(ms) && Merged(ms, es, byVersion)
    requires EntryOk(e) && ParseFile(e.name).value in byVersion
    requires forall x | x in es && IsSql(x) :: ParseFile(x.name) != ParseFile(e.name)
    ensures BuiltIn(ParseFile(e.name).value, ms)
    ensures byVersion[ParseFile(e.name).value].content == e.content.value <==> Copies(e, ms)
  {
    var v := ParseFile(e.name).value;
    assert HasVersion(ms, es, v);
    var m :| m in ms && m.version == v;
    assert HoldsBuiltin(byVersion, m);
    forall m' | m' in ms && ParseFile(e.name) == Some(m'.version)
      ensures m' == m
    {
      SameVersion(ms, m, m');
    }
  }

  /** The app's files on top of built-in ones that merged without error. */
  method AddAppFiles(ms: seq<Migration>, es: seq<Entry>, builtins: map<int, Source>) returns (byVersion: map<int, Source>, errors: nat)
    requires DistinctVersions(ms) && forall m | m in ms :: HoldsBuiltin(builtins, m)
    requires forall v :: v in builtins <==> BuiltIn(v, ms)
    ensures errors == 0 <==> EntriesOk(ms, es)
    ensures errors == 0 ==> Merged(ms, es, byVersion)
  {
    byVersion, errors := builtins, 0;
    var appVersions: set<int> := {};
    for i := 0 to |es|
      invariant errors == 0 <==> EntriesOk(ms, es[..i])
      invariant errors == 0 ==> Merged(ms, es[..i], byVersion)
      invariant errors == 0 ==>
        forall v :: v in appVersions <==> exists e | e in es[..i] :: IsSql(e) && ParseFile(e.name) == Some(v)
    {
      var e := es[i];
      var before, more := es[..i], es[..i] + [e];
      assert es[..i + 1] == more;
      assert forall x :: x in more <==> x in before || x == e;
      EntriesOkExtends(ms, before, e);
      if IsSql(e) {
        var version := ParseFile(e.name);
        if version.None? || version.value in appVersions || e.content.None? {
          errors := errors + 1;
        } else {
          appVersions := appVersions + {version.value};
          if version.value in byVersion {
            if errors == 0 {
              Absorbed(ms, before, e, byVersion);
            }
            if byVersion[version.value].content != e.content.value {
              errors := errors + 1;
            }
            if errors == 0 {
              MergedSkips(ms, before, e, byVersion);
            }
          } else {
            if errors == 0 {
              MergedAdds(ms, before, e, byVersion);
            }
            byVersion := byVersion[version.value := Source(e.name, e.content.value)];
          }
        }
      } else if errors == 0 {
        MergedSkips(ms, before, e, byVersion);
      }
    }
    assert es[..|es|] == es;
  }

  /** What the app passed for its own migrations: nothing, a directory that can't be listed, or its entries. */
  datatype AppFS = NoFS | Unreadable | Listed(entries: seq<Entry>) {
    function Entries(): seq<Entry> { if Listed? then entries else [] }
  }

  /** Every source's file name parses back to the version it is stored under. */
  lemma SourcesParseBack(ms: seq<Migration>, es: seq<Entry>, byVersion: map<int, Source>, v: int)
    requires Mergeable(ms, es) && Merged(ms, es, byVersion) && v in byVersion
    ensures ParseFile(byVersion[v].file) == Some(v) && MergedFile(ms, es, byVersion[v].file, byVersion[v].content)
  {
    if m :| m in ms && m.version == v {
      assert HoldsBuiltin(byVersion, m);
      NameParsesBack(m.version, m.name);
    } else {
      var e :| e in es && IsSql(e) && ParseFile(e.name) == Some(v);
      assert HoldsEntry(byVersion, e);
    }
  }

  /** The version a merged file is stored under. */
  lemma FileIsStored(ms: seq<Migration>, es: seq<Entry>, byVersion: map<int, Source>, f: string, c: Bytes)
    requires Mergeable(ms, es) && Merged(ms, es, byVersion) && MergedFile(ms, es, f, c)
    ensures ParseFile(f).Some? && ParseFile(f).value in byVersion && byVersion[ParseFile(f).value] == Source(f, c)
  {
    FilesHaveVersions(ms, es, f, c);
    var v := ParseFile(f).value;
    SourcesParseBack(ms, es, byVersion, v);
    OneFilePerVersion(ms, es, f, c, byVersion[v].file, byVersion[v].content);
  }

  lemma EmptyOrNot(s: set<int>)
    ensures s == {} || exists v :: v in s
  {
    if forall v :: v !in s { assert s == {}; }
  }

  /** The last loop of mergeMigrations: versions give way to file names. */
  method NamedFiles(byVersion: map<int, Source>) returns (files: map<string, Bytes>)
    requires forall v | v in byVersion :: ParseFile(byVersion[v].file) == Some(v)
    ensures forall v | v in byVersion :: byVersion[v].file in files && files[byVersion[v].file] == byVersion[v].content
    ensures forall f | f in files :: ParseFile(f).Some? && ParseFile(f).value in byVersion && byVersion[ParseFile(f).value] == Source(f, files[f])
  {
    files := map[];
    var rest: set<int> := byVersion.Keys;
    while rest != {}
      invariant rest <= byVersion.Keys
      invariant forall v | v in byVersion && v !in rest :: byVersion[v].file in files && files[byVersion[v].file] == byVersion[v].content
      invariant forall f | f in files :: ParseFile(f).Some? && ParseFile(f).value in byVersion && byVersion[ParseFile(f).value] == Source(f, files[f])
      decreases rest
    {
      EmptyOrNot(rest);
      var v :| v in rest;
      files := files[byVersion[v].file := byVersion[v].content];
      rest := rest - {v};
    }
  }

  /** mergeMigrations: succeeds exactly on mergeable inputs, and then holds exactly the merged files. */
  method MergeMigrations(ms: seq<Migration>, app: AppFS) returns (files: Option<map<string, Bytes>>)
    ensures files.Some? <==> !app.Unreadable? && Mergeable(ms, app.Entries())
    ensures files.Some? ==> IsMerge(ms, app.Entries(), files.value)
  {
    var builtins, errors := AddBuiltins(ms);
    if errors > 0 || app.Unreadable? {
      return None;
    }
    var es := app.Entries();
    assert Merged(ms, [], builtins);
    var byVersion, more := AddAppFiles(ms, es, builtins);
    if more > 0 {
      return None;
    }
    forall v | v in byVersion
      ensures ParseFile(byVersion[v].file) == Some(v) && MergedFile(ms, es, byVersion[v].file, byVersion[v].content)
    {
      SourcesParseBack(ms, es, byVersion, v);
    }
    var merged := NamedFiles(byVersion);
    forall f, c | MergedFile(ms, es, f, c)
      ensures f in merged && merged[f] == c
    {
      FileIsStored(ms, es, byVersion, f, c);
    }
    files := Some(merged);
  }

  // ---- The file system goose reads ----

  /** newMemFS: the file names, sorted. */
  method NewMemFS(files: map<string, Bytes>) returns (names: seq<string>)
    ensures StrictlySorted(names) && Elements(names) == files.Keys
  {
    names := [];
    var rest := files.Keys;
    while rest != {}
      invariant rest <= files.Keys && Elements(names) == files.Keys - rest
      invariant forall i, j | 0 <= i < j < |names| :: names[i] != names[j]
      decreases rest
    {
      var n :| n in rest;
      assert n !in Elements(names);
      assert Elements(names + [n]) == Elements(names) + {n};
      names := names + [n];
      rest := rest - {n};
    }
    SortIsSorted(names);
    SortedDistinct(names);
    names := Sort(names);
  }

  /** Sorting a list without duplicates leaves none. */
  lemma SortedDistinct(s: seq<string>)
    requires forall i, j | 0 <= i < j < |s| :: s[i] != s[j]
    ensures StrictlySorted(Sort(s))
  {
    SortIsSorted(s);
    var t := Sort(s);
    forall i, j | 0 <= i < j < |t|
      ensures Less(t[i], t[j])
    {
      LessTotal(t[i], t[j]);
      if t[i] == t[j] {
        CountTwice(t, i, j);
        var x, y := TwoPlaces(s, t[i]);
      }
    }
  }

  /** One listing of the directory: what a call returns and how far it gets. */
  datatype Page = Page(names: seq<string>, eof: bool)

  function PageAt(all: seq<string>, at: nat, n: int): Page
    requires at <= |all|
  {
    if n <= 0 then Page(all[at..], false)
    else if at == |all| then Page([], true)
    else Page(all[at..if n < |all| - at then at + n else |all|], false)
  }

  /** How much of the directory calls asking for pages of these sizes have read. */
  function Offset(all: seq<string>, ns: seq<int>): (at: nat)
    ensures at <= |all|
  {
    if ns == [] then 0
    else
      var before := Offset(all, ns[..|ns| - 1]);
      before + |PageAt(all, before, ns[|ns| - 1]).names|
  }

  /** What each of the calls returned. */
  function Pages(all: seq<string>, ns: seq<int>): seq<Page> {
    if ns == [] then []
    else Pages(all, ns[..|ns| - 1]) + [PageAt(all, Offset(all, ns[..|ns| - 1]), ns[|ns| - 1])]
  }

  function Yielded(pages: seq<Page>): seq<string> {
    if pages == [] then [] else Yielded(pages[..|pages| - 1]) + pages[|pages| - 1].names
  }

  lemma {:induction false} PagesYield(all: seq<string>, ns: seq<int>)
    ensures |Pages(all, ns)| == |ns| && Yielded(Pages(all, ns)) == all[..Offset(all, ns)]
  {
    if ns != [] {
      var before := ns[..|ns| - 1];
      PagesYield(all, before);
      var pages := Pages(all, ns);
      assert pages[..|pages| - 1] == Pages(all, before);
    }
  }

  lemma PagesMore(all: seq<string>, ns: seq<int>, n: int)
    ensures Pages(all, ns + [n]) == Pages(all, ns) + [PageAt(all, Offset(all, ns), n)]
    ensures Offset(all, ns) <= Offset(all, ns + [n])
  {
    assert (ns + [n])[..|ns|] == ns;
  }

  lemma {:induction false} PageOfCall(all: seq<string>, ns: seq<int>, k: nat)
    requires k < |ns|
    ensures |Pages(all, ns)| == |ns| && Pages(all, ns)[k] == PageAt(all, Offset(all, ns[..k]), ns[k])
    ensures Offset(all, ns[..k + 1]) <= Offset(all, ns)
  {
    var n := |ns| - 1;
    var before := ns[..n];
    assert ns == before + [ns[n]];
    PagesYield(all, before);
    PagesMore(all, before, ns[n]);
    if k < n {
      PageOfCall(all, before, k);
      assert before[..k] == ns[..k] && before[..k + 1] == ns[..k + 1];
    } else {
      assert ns[..k + 1] == ns;
    }
  }

  /**
   Whatever page sizes a reader asks for, the pages together are a prefix of the directory: every entry once, in
   order. The end is reported to a sized call exactly when everything has been yielded before it, so a
   reader told of the end, or one that made a call without a size, has read everything. A sized call gets as many as it
   asked for, or all that are left.
   */
  lemma PagesAreAPrefix(all: seq<string>, ns: seq<int>, k: nat)
    requires k < |ns|
    ensures |Pages(all, ns)| == |ns| && Yielded(Pages(all, ns)) <= all
    ensures Pages(all, ns)[k].eof <==> ns[k] > 0 && Yielded(Pages(all, ns[..k])) == all
    ensures ns[k] <= 0 || Pages(all, ns)[k].eof ==> Yielded(Pages(all, ns)) == all
    ensures var left := |all| - |Yielded(Pages(all, ns[..k]))|;
      |Pages(all, ns)[k].names| == if ns[k] <= 0 || left <= ns[k] then left else ns[k]
  {
    YieldedUpTo(all, ns);
    YieldedUpTo(all, ns[..k]);
    PageOfCall(all, ns, k);
    PageLength(all, Offset(all, ns[..k]), ns[k]);
    OffsetNext(all, ns, k);
  }

  lemma YieldedUpTo(all: seq<string>, ns: seq<int>)
    ensures Yielded(Pages(all, ns)) <= all && |Yielded(Pages(all, ns))| == Offset(all, ns)
    ensures Offset(all, ns) == |all| <==> Yielded(Pages(all, ns)) == all
  {
    PagesYield(all, ns);
  }

  lemma OffsetNext(all: seq<string>, ns: seq<int>, k: nat)
    requires k < |ns|
    ensures Offset(all, ns[..k + 1]) == Offset(all, ns[..k]) + |PageAt(all, Offset(all, ns[..k]), ns[k]).names|
  {
    assert ns[..k + 1][..k] == ns[..k];
  }

  lemma PageLength(all: seq<string>, at: nat, n: int)
    requires at <= |all|
    ensures |PageAt(all, at, n).names| == if n <= 0 || |all| - at <= n then |all| - at else n
    ensures PageAt(all, at, n).eof <==> n > 0 && at == |all|
  {
  }

  /** An open directory: the listing and how much of it was read. */
  class MemDir {
    const names: seq<string>
    var done: nat
    ghost var asked: seq<int> // the sizes asked for so far

    ghost predicate Valid() reads this { done == Offset(names, asked) }

    constructor (names: seq<string>)
      ensures Valid() && this.names == names && asked == []
    {
      this.names, done, asked := names, 0, [];
    }

    method ReadDir(n: int) returns (page: Page)
      requires Valid()
      modifies this
      ensures Valid() && asked == old(asked) + [n]
      ensures Pages(names, asked) == Pages(names, old(asked)) + [page]
    {
      assert (asked + [n])[..|asked|] == asked;
      asked := asked + [n];
      var rest := names[done..];
      if n <= 0 {
        done := |names|;
        return Page(rest, false);
      }
      if |rest| == 0 {
        return Page([], true);
      }
      rest := rest[..if n < |rest| then n else |rest|];
      done := done + |rest|;
      page := Page(rest, false);
      assert page == PageAt(names, old(done), n);
    }
  }
}
