/**
 Redaction of audit metadata: values under keys that name a secret are replaced, and NUL characters,
 which jsonb rejects, are removed. Keys are ASCII; JSON values are trees, an object's fields listed in the
 order a Go map happened to be iterated.
 */
module Redaction {
  import opened Basics
  import opened Strings

  const MARKER := "[REDACTED]"
  const NUL_CHAR: char := '\0'

  // ---- Key segments ----

  predicate IsUpper(c: char) { 'A' <= c <= 'Z' }
  predicate IsLetterOrDigit(c: char) { 'a' <= c <= 'z' || 'A' <= c <= 'Z' || '0' <= c <= '9' }

  predicate IsLower(c: char) { IsLetterOrDigit(c) && !IsUpper(c) }

  /** What snakeCase writes for one character, given whether a lower-case one came before. */
  function SnakeChar(c: char, prevLower: bool): string {
    if IsUpper(c) then (if prevLower then "_" else "") + [Lower(c)]
    else if IsLetterOrDigit(c) then [c]
    else "_"
  }

  function Snake(key: string, prevLower: bool): string {
    if key == [] then [] else SnakeChar(key[0], prevLower) + Snake(key[1..], IsLower(key[0]))
  }

  function TrimUnderscores(s: string): string {
    if s != [] && s[0] == '_' then TrimUnderscores(s[1..])
    else if s != [] && s[|s| - 1] == '_' then TrimUnderscores(s[..|s| - 1])
    else s
  }

  function SnakeCase(key: string): string { TrimUnderscores(Snake(key, false)) }

  /** snakeCase with its loop and builder. */
  method BuildSnakeCase(key: string) returns (s: string)
    ensures s == SnakeCase(key)
  {
    var b := "";
    var prevLower := false;
    for i := 0 to |key|
      invariant b + Snake(key[i..], prevLower) == Snake(key, false)
    {
      ghost var was, lower := b, prevLower;
      var r := key[i];
      if IsUpper(r) {
        if prevLower {
          b := b + "_";
        }
        b := b + [Lower(r)];
        prevLower := false;
      } else if IsLetterOrDigit(r) {
        b := b + [r];
        prevLower := true;
      } else {
        b := b + "_";
        prevLower := false;
      }
      assert b == was + SnakeChar(r, lower) && prevLower == IsLower(r);
      SnakeMore(was, key, i, lower);
    }
    assert key[|key|..] == [] && b + [] == b;
    s := TrimUnderscores(b);
  }

  lemma SnakeMore(b: string, key: string, i: nat, prevLower: bool)
    requires i < |key|
    ensures b + Snake(key[i..], prevLower) == b + SnakeChar(key[i], prevLower) + Snake(key[i + 1..], IsLower(key[i]))
  {
    assert key[i..][1..] == key[i + 1..];
  }

  /** A plural "s" is dropped from segments of more than two characters that do not end in "ss". */
  function Singular(seg: string): string {
    if |seg| > 2 && seg[|seg| - 1] == 's' && seg[|seg| - 2] != 's' then seg[..|seg| - 1] else seg
  }

  function Singulars(segs: seq<string>): seq<string> {
    seq(|segs|, i requires 0 <= i < |segs| => Singular(segs[i]))
  }

  /** A key's segments: the words redacted names are compared with. */
  function Segments(key: string): seq<string> { Singulars(Split(SnakeCase(key), '_')) }

  function NormalizeKey(key: string): string { Join(Segments(key), '_') }

  /** strings.Contains. */
  predicate ContainsString(s: string, part: string) {
    exists k | 0 <= k <= |s| :: OccursAt(s, part, k)
  }

  predicate OccursAt(s: string, part: string, k: nat) {
    k + |part| <= |s| && s[k..k + |part|] == part
  }

  /** sensitive: the padded key contains a padded redacted name. */
  predicate Sensitive(key: string, redacted: seq<string>) {
    exists name | name in redacted :: ContainsString("_" + NormalizeKey(key) + "_", "_" + name + "_")
  }

  // ---- Padded substrings are runs of segments ----

  predicate Plain(segs: seq<string>) { forall s | s in segs :: '_' !in s }

  /** Every segment with an underscore before it, and one after the last. */
  function Pad(segs: seq<string>): string {
    if segs == [] then "_" else "_" + segs[0] + Pad(segs[1..])
  }

  lemma {:induction false} PadIsPadded(segs: seq<string>)
    requires segs != []
    ensures Pad(segs) == "_" + Join(segs, '_') + "_"
  {
    if |segs| > 1 {
      PadIsPadded(segs[1..]);
    } else {
      assert segs[1..] == [];
    }
  }

  lemma {:induction false} SplitOfJoin(segs: seq<string>)
    requires segs != [] && Plain(segs)
    ensures Split(Join(segs, '_'), '_') == segs
  {
    var head, text := segs[0], Join(segs, '_');
    assert head in segs;
    if |segs| == 1 {
      SplitPlain(head);
    } else {
      var rest := segs[1..];
      assert forall s | s in rest :: s in segs;
      SplitOfJoin(rest);
      SplitFirst(head, Join(rest, '_'));
      assert text == head + ("_" + Join(rest, '_'));
    }
  }

  lemma {:induction false} SplitPlain(s: string)
    requires '_' !in s
    ensures Split(s, '_') == [s]
  {
    if s != [] {
      assert s[0] in s && forall c | c in s[1..] :: c in s;
      SplitPlain(s[1..]);
      assert s == [s[0]] + s[1..];
    }
  }

  lemma {:induction false} SplitFirst(head: string, rest: string)
    requires '_' !in head
    ensures Split(head + ("_" + rest), '_') == [head] + Split(rest, '_')
  {
    var s := head + ("_" + rest);
    if head == [] {
      assert s == "_" + rest && s[1..] == rest;
    } else {
      assert head[0] in head && forall c | c in head[1..] :: c in head;
      assert s[1..] == head[1..] + ("_" + rest);
      SplitFirst(head[1..], rest);
      assert head == [head[0]] + head[1..];
    }
  }

  /** `run` occurs as consecutive elements of `segs`. */
  predicate RunAt(run: seq<string>, segs: seq<string>, i: nat) {
    i + |run| <= |segs| && segs[i..i + |run|] == run
  }

  ghost predicate HasRun(run: seq<string>, segs: seq<string>) {
    exists i: nat :: RunAt(run, segs, i)
  }

  lemma {:induction false} RunIsContained(run: seq<string>, segs: seq<string>, i: nat) returns (k: nat)
    requires RunAt(run, segs, i)
    ensures k + |Pad(run)| <= |Pad(segs)| && Pad(segs)[k..k + |Pad(run)|] == Pad(run)
  {
    if i > 0 {
      assert RunAt(run, segs[1..], i - 1) by { assert segs[1..][i - 1..i - 1 + |run|] == segs[i..i + |run|]; }
      k := RunIsContained(run, segs[1..], i - 1);
      var skip := 1 + |segs[0]|;
      assert Pad(segs)[skip..] == Pad(segs[1..]);
      assert Pad(segs)[skip + k..skip + k + |Pad(run)|] == Pad(segs[1..])[k..k + |Pad(run)|];
      k := skip + k;
    } else {
      PadPrefix(run, segs);
      k := 0;
    }
  }

  lemma {:induction false} PadPrefix(run: seq<string>, segs: seq<string>)
    requires RunAt(run, segs, 0)
    ensures |Pad(run)| <= |Pad(segs)| && Pad(segs)[..|Pad(run)|] == Pad(run)
  {
    if run == [] {
      assert Pad(segs)[0] == '_';
    } else {
      assert segs[0] == run[0] by { assert segs[0..|run|][0] == run[0]; }
      assert RunAt(run[1..], segs[1..], 0) by { assert segs[1..][0..|run| - 1] == segs[0..|run|][1..]; }
      PadPrefix(run[1..], segs[1..]);
      var head := "_" + segs[0];
      assert Pad(segs) == head + Pad(segs[1..]) && Pad(run) == head + Pad(run[1..]);
    }
  }

  /** An underscore of a padded text starts a segment. */
  lemma {:induction false} Boundary(segs: seq<string>, k: nat) returns (i: nat)
    requires Plain(segs) && k < |Pad(segs)| && Pad(segs)[k] == '_'
    ensures i <= |segs| && Pad(segs)[k..] == Pad(segs[i..])
  {
    if k == 0 {
      i := 0;
      assert segs[0..] == segs && Pad(segs)[0..] == Pad(segs);
    } else {
      var skip := 1 + |segs[0]|;
      assert segs[0] in segs && forall s | s in segs[1..] :: s in segs;
      assert forall j | 1 <= j < skip :: Pad(segs)[j] == segs[0][j - 1] && segs[0][j - 1] in segs[0];
      assert Pad(segs)[skip..] == Pad(segs[1..]);
      assert Pad(segs)[k] == Pad(segs[1..])[k - skip];
      i := Boundary(segs[1..], k - skip);
      assert Pad(segs)[k..] == Pad(segs[1..])[k - skip..];
      assert segs[1..][i..] == segs[i + 1..];
      i := i + 1;
    }
  }

  predicate StartsWith(s: string, p: string) { |p| <= |s| && s[..|p|] == p }

  lemma PadStarts(segs: seq<string>)
    ensures Pad(segs) != [] && Pad(segs)[0] == '_'
  {
  }

  /** A padded text that starts another gives its segments at the start. */
  lemma {:induction false} PrefixIsRun(run: seq<string>, segs: seq<string>)
    requires Plain(run) && Plain(segs) && StartsWith(Pad(segs), Pad(run))
    ensures RunAt(run, segs, 0)
  {
    if run != [] {
      assert run[0] in run && forall s | s in run[1..] :: s in run;
      PadStarts(run[1..]);
      assert |Pad(run)| >= 2;
      assert segs != [];
      assert segs[0] in segs && forall s | s in segs[1..] :: s in segs;
      FirstSegment(run, segs);
      var skip := 1 + |segs[0]|;
      assert Pad(segs)[skip..] == Pad(segs[1..]) && Pad(run)[skip..] == Pad(run[1..]);
      assert Pad(segs[1..])[..|Pad(run[1..])|] == Pad(segs)[..|Pad(run)|][skip..];
      PrefixIsRun(run[1..], segs[1..]);
      assert segs[0..|run|] == [segs[0]] + segs[1..][0..|run| - 1];
    }
  }

  lemma FirstSegment(run: seq<string>, segs: seq<string>)
    requires run != [] && segs != [] && '_' !in run[0] && '_' !in segs[0] && StartsWith(Pad(segs), Pad(run))
    ensures run[0] == segs[0]
  {
    var p, q, n := Pad(run), Pad(segs), |run[0]|;
    PadHead(run);
    PadHead(segs);
    assert q[1..n + 1] == q[..|p|][1..n + 1];
    assert q[n + 1] == q[..|p|][n + 1];
    UpToUnderscore(q, run[0], segs[0]);
  }

  lemma PadHead(segs: seq<string>)
    requires segs != []
    ensures var n := |segs[0]|;
      |Pad(segs)| >= n + 2 && Pad(segs)[1..n + 1] == segs[0] && Pad(segs)[n + 1] == '_'
  {
    PadStarts(segs[1..]);
  }

  lemma UpToUnderscore(t: string, a: string, b: string)
    requires |a| + 1 < |t| && |b| + 1 < |t| && t[1..|a| + 1] == a && t[1..|b| + 1] == b
    requires t[|a| + 1] == '_' && t[|b| + 1] == '_' && '_' !in a && '_' !in b
    ensures a == b
  {
    assert forall i | 0 <= i < |a| :: t[i + 1] == a[i] && a[i] in a;
    assert forall i | 0 <= i < |b| :: t[i + 1] == b[i] && b[i] in b;
  }

  /** The padded substring test holds exactly when the name's segments are a consecutive run of the key's. */
  lemma PaddedTestIsRun(run: seq<string>, segs: seq<string>)
    requires Plain(run) && Plain(segs)
    ensures ContainsString(Pad(segs), Pad(run)) <==> HasRun(run, segs)
  {
    if ContainsString(Pad(segs), Pad(run)) {
      var k :| 0 <= k <= |Pad(segs)| && OccursAt(Pad(segs), Pad(run), k);
      PadStarts(run);
      assert Pad(segs)[k] == Pad(segs)[k..k + |Pad(run)|][0] == '_';
      var i := Boundary(segs, k);
      assert Pad(segs[i..])[..|Pad(run)|] == Pad(segs)[k..k + |Pad(run)|];
      assert forall s | s in segs[i..] :: s in segs;
      PrefixIsRun(run, segs[i..]);
      assert segs[i..][0..|run|] == segs[i..i + |run|];
      assert RunAt(run, segs, i);
    }
    if HasRun(run, segs) {
      var i: nat :| RunAt(run, segs, i);
      var k := RunIsContained(run, segs, i);
      assert OccursAt(Pad(segs), Pad(run), k);
    }
  }

  lemma SegmentsPlain(key: string)
    ensures Segments(key) != [] && Plain(Segments(key))
  {
    var raw := Split(SnakeCase(key), '_');
    forall s | s in Segments(key)
      ensures '_' !in s
    {
      var i :| 0 <= i < |raw| && Segments(key)[i] == s;
      assert raw[i] in raw;
      assert forall c | c in s :: c in raw[i];
    }
  }

  /**
   What makes a key sensitive: the segments of some redacted name, themselves normalised, are consecutive
   segments of the key's, so "token" is in "refreshTokens" and never in "tokenizer".
   */
  lemma SensitiveIsARun(key: string, names: seq<string>)
    ensures Sensitive(key, NormalizedKeys(names)) <==> exists name | name in names :: HasRun(Segments(name), Segments(key))
  {
    SegmentsPlain(key);
    PadIsPadded(Segments(key));
    forall name
      ensures ContainsString("_" + NormalizeKey(key) + "_", "_" + NormalizeKey(name) + "_") <==> HasRun(Segments(name), Segments(key))
    {
      SegmentsPlain(name);
      PadIsPadded(Segments(name));
      PaddedTestIsRun(Segments(name), Segments(key));
    }
    if Sensitive(key, NormalizedKeys(names)) {
      var n :| n in NormalizedKeys(names) && ContainsString("_" + NormalizeKey(key) + "_", "_" + n + "_");
      var i :| 0 <= i < |names| && NormalizedKeys(names)[i] == n;
      assert names[i] in names;
    }
    if name :| name in names && HasRun(Segments(name), Segments(key)) {
      var i :| 0 <= i < |names| && names[i] == name;
      assert NormalizedKeys(names)[i] == NormalizeKey(name);
      assert NormalizeKey(name) in NormalizedKeys(names);
    }
  }

  function NormalizedKeys(names: seq<string>): seq<string> {
    seq(|names|, i requires 0 <= i < |names| => NormalizeKey(names[i]))
  }

  /** Normalising is stable in shape: a normalised key splits back into its segments. */
  lemma NormalizedSplits(key: string)
    ensures Split(NormalizeKey(key), '_') == Segments(key)
  {
    SegmentsPlain(key);
    SplitOfJoin(Segments(key));
  }

  // ---- Trees ----

  datatype Json =
    | Null | Bool(b: bool) | Number(text: string)
    | Str(s: string)
    | Arr(items: seq<Json>)
    | Obj(fields: seq<Field>)

  datatype Field = Field(key: string, value: Json)

  function StripNul(s: string): string {
    if s == [] then [] else (if s[0] == NUL_CHAR then [] else [s[0]]) + StripNul(s[1..])
  }

  lemma {:induction false} StripNulStrips(s: string)
    ensures NUL_CHAR !in StripNul(s) && (NUL_CHAR !in s ==> StripNul(s) == s)
  {
    if s != [] {
      StripNulStrips(s[1..]);
      assert s == [s[0]] + s[1..];
      if NUL_CHAR !in s {
        assert s[0] in s && forall c | c in s[1..] :: c in s;
      }
    }
  }

  /** Only NULs go, from wherever they are: with the lemma above this says what is left of every text. */
  lemma {:induction false} StripNulParts(a: string, b: string)
    ensures StripNul(a + b) == StripNul(a) + StripNul(b)
  {
    if a == [] {
      assert a + b == b;
    } else {
      assert (a + b)[1..] == a[1..] + b;
      StripNulParts(a[1..], b);
    }
  }

  /** out[key] = value on a Go map. */
  function Put(out: seq<Field>, f: Field): seq<Field> {
    if out == [] then [f]
    else if out[0].key == f.key then [f] + out[1..]
    else [out[0]] + Put(out[1..], f)
  }

  /** redact. */
  function Redact(v: Json, redacted: seq<string>): Json
    decreases v, 0
  {
    match v
    case Obj(fields) => Obj(RedactFields(fields, redacted))
    case Arr(items) => Arr(RedactItems(items, redacted))
    case Str(s) => Str(StripNul(s))
    case _ => v
  }

  function RedactItems(items: seq<Json>, redacted: seq<string>): (r: seq<Json>)
    ensures |r| == |items|
    decreases items, 0
  {
    if items == [] then []
    else RedactItems(items[..|items| - 1], redacted) + [Redact(items[|items| - 1], redacted)]
  }

  function RedactFields(fields: seq<Field>, redacted: seq<string>): seq<Field>
    decreases fields, 0
  {
    if fields == [] then []
    else
      var f := fields[|fields| - 1];
      Put(RedactFields(fields[..|fields| - 1], redacted), RedactField(f, redacted))
  }

  function RedactField(f: Field, redacted: seq<string>): Field
    decreases f, 1
  {
    var key := StripNul(f.key);
    Field(key, if Sensitive(key, redacted) then Str(MARKER) else Redact(f.value, redacted))
  }

  /** Nothing left to redact, at any depth: sensitive keys hold the marker, and no key or string holds a NUL. */
  predicate Clean(v: Json, redacted: seq<string>)
    decreases v, 0
  {
    match v
    case Obj(fields) => forall i | 0 <= i < |fields| :: CleanField(fields[i], redacted)
    case Arr(items) => forall i | 0 <= i < |items| :: Clean(items[i], redacted)
    case Str(s) => NUL_CHAR !in s
    case _ => true
  }

  predicate CleanField(f: Field, redacted: seq<string>)
    decreases f, 1
  {
    && NUL_CHAR !in f.key
    && if Sensitive(f.key, redacted) then f.value == Str("[REDACTED]") else Clean(f.value, redacted)
  }

  /** Objects are maps: no key twice, at any depth that is kept. */
  predicate Mapped(v: Json)
    decreases v, 0
  {
    match v
    case Obj(fields) => DistinctKeys(fields) && forall i | 0 <= i < |fields| :: Mapped(fields[i].value)
    case Arr(items) => forall i | 0 <= i < |items| :: Mapped(items[i])
    case _ => true
  }

  predicate DistinctKeys(fields: seq<Field>) {
    forall i, j | 0 <= i < j < |fields| :: fields[i].key != fields[j].key
  }

  predicate AllClean(fields: seq<Field>, redacted: seq<string>) {
    && DistinctKeys(fields)
    && forall i | 0 <= i < |fields| :: CleanField(fields[i], redacted) && Mapped(fields[i].value)
  }

  lemma {:induction false} PutKeeps(out: seq<Field>, f: Field, redacted: seq<string>)
    requires AllClean(out, redacted) && CleanField(f, redacted) && Mapped(f.value)
    ensures AllClean(Put(out, f), redacted)
    ensures forall i | 0 <= i < |Put(out, f)| :: Put(out, f)[i] == f || Put(out, f)[i] in out
  {
    if out != [] && out[0].key != f.key {
      PutKeeps(out[1..], f, redacted);
      var r := Put(out, f);
      forall j | 0 < j < |r|
        ensures r[j].key != r[0].key
      {
        assert r[j] == Put(out[1..], f)[j - 1];
      }
      assert out == [out[0]] + out[1..];
    }
  }

  /** After redaction, in whatever order maps were iterated, nothing is left to redact at any depth. */
  lemma {:induction false} RedactIsClean(v: Json, redacted: seq<string>)
    ensures Clean(Redact(v, redacted), redacted) && Mapped(Redact(v, redacted))
    decreases v, 0
  {
    match v
    case Obj(fields) => FieldsClean(fields, redacted);
    case Arr(items) => ItemsClean(items, redacted);
    case Str(s) => StripNulStrips(s);
    case _ =>
  }

  lemma {:induction false} ItemsClean(items: seq<Json>, redacted: seq<string>)
    ensures forall i | 0 <= i < |items| ::
      Clean(RedactItems(items, redacted)[i], redacted) && Mapped(RedactItems(items, redacted)[i])
    decreases items, 0
  {
    if items != [] {
      ItemsClean(items[..|items| - 1], redacted);
      RedactIsClean(items[|items| - 1], redacted);
    }
  }

  lemma {:induction false} FieldsClean(fields: seq<Field>, redacted: seq<string>)
    ensures AllClean(RedactFields(fields, redacted), redacted)
    decreases fields, 0
  {
    if fields != [] {
      var f := fields[|fields| - 1];
      FieldsClean(fields[..|fields| - 1], redacted);
      RedactIsClean(f.value, redacted);
      StripNulStrips(f.key);
      PutKeeps(RedactFields(fields[..|fields| - 1], redacted), RedactField(f, redacted), redacted);
    }
  }

  /** Metadata with nothing to redact is stored as it is. */
  lemma {:induction false} CleanIsUntouched(v: Json, redacted: seq<string>)
    requires Clean(v, redacted) && Mapped(v)
    ensures Redact(v, redacted) == v
    decreases v, 0
  {
    match v
    case Obj(fields) =>
      CleanFieldsUntouched(fields, redacted);
    case Arr(items) =>
      CleanItemsUntouched(items, redacted);
    case Str(s) => StripNulStrips(s);
    case _ =>
  }

  lemma {:induction false} CleanItemsUntouched(items: seq<Json>, redacted: seq<string>)
    requires forall i | 0 <= i < |items| :: Clean(items[i], redacted) && Mapped(items[i])
    ensures RedactItems(items, redacted) == items
    decreases items, 0
  {
    if items != [] {
      CleanItemsUntouched(items[..|items| - 1], redacted);
      CleanIsUntouched(items[|items| - 1], redacted);
    }
  }

  lemma {:induction false} CleanFieldsUntouched(fields: seq<Field>, redacted: seq<string>)
    requires AllClean(fields, redacted)
    ensures RedactFields(fields, redacted) == fields
    decreases fields, 0
  {
    if fields != [] {
      var before, f := fields[..|fields| - 1], fields[|fields| - 1];
      CleanFieldsUntouched(before, redacted);
      CleanFieldUntouched(f, redacted);
      UntouchedOneMore(before, f, redacted);
      assert fields == before + [f];
    }
  }

  lemma {:induction false} UntouchedOneMore(before: seq<Field>, f: Field, redacted: seq<string>)
    requires RedactFields(before, redacted) == before && RedactField(f, redacted) == f && DistinctKeys(before + [f])
    ensures RedactFields(before + [f], redacted) == before + [f]
  {
    assert (before + [f])[..|before|] == before;
    assert (before + [f])[|before|] == f && forall i | 0 <= i < |before| :: (before + [f])[i] == before[i];
    PutLast(before, f);
  }

  lemma {:induction false} CleanFieldUntouched(f: Field, redacted: seq<string>)
    requires CleanField(f, redacted) && Mapped(f.value)
    ensures RedactField(f, redacted) == f
    decreases f, 1
  {
    StripNulStrips(f.key);
    if !Sensitive(f.key, redacted) {
      CleanIsUntouched(f.value, redacted);
    }
  }

  lemma {:induction false} PutLast(out: seq<Field>, f: Field)
    requires forall i | 0 <= i < |out| :: out[i].key != f.key
    ensures Put(out, f) == out + [f]
  {
    if out != [] {
      PutLast(out[1..], f);
      assert out == [out[0]] + out[1..];
    }
  }

  /** Redacting twice is redacting once. */
  lemma RedactIsIdempotent(v: Json, redacted: seq<string>)
    ensures Redact(Redact(v, redacted), redacted) == Redact(v, redacted)
  {
    RedactIsClean(v, redacted);
    CleanIsUntouched(Redact(v, redacted), redacted);
  }

  // ---- What redaction keeps ----

  predicate HasKey(fields: seq<Field>, key: string) {
    exists i :: 0 <= i < |fields| && fields[i].key == key
  }

  /**
   `w` tells what `v` tells, less the secrets: the same shape, every other value in its place, every key still
   there without its NULs, and every field of `w` taken from one of `v`.
   */
  ghost predicate Represents(v: Json, w: Json, redacted: seq<string>)
    decreases v, 0
  {
    match v
    case Obj(fields) => w.Obj? && FieldsRepresent(fields, w.fields, redacted)
    case Arr(items) => w.Arr? && |w.items| == |items| && forall i | 0 <= i < |items| :: Represents(items[i], w.items[i], redacted)
    case Str(s) => w == Str(StripNul(s))
    case _ => w == v
  }

  ghost predicate FieldsRepresent(fields: seq<Field>, out: seq<Field>, redacted: seq<string>)
    decreases fields, 1
  {
    && (forall i | 0 <= i < |fields| :: HasKey(out, StripNul(fields[i].key)))
    && (forall j | 0 <= j < |out| :: TakenFrom(fields, out[j], redacted))
  }

  ghost predicate TakenFrom(fields: seq<Field>, g: Field, redacted: seq<string>)
    decreases fields, 0
  {
    exists i :: 0 <= i < |fields| && FieldRepresents(fields[i], g, redacted)
  }

  ghost predicate FieldRepresents(f: Field, g: Field, redacted: seq<string>)
    decreases f, 1
  {
    && g.key == StripNul(f.key)
    && if Sensitive(g.key, redacted) then g.value == Str(MARKER) else Represents(f.value, g.value, redacted)
  }

  lemma {:induction false} PutAdds(out: seq<Field>, f: Field)
    ensures forall x :: x in Put(out, f) ==> x == f || x in out
    ensures HasKey(Put(out, f), f.key)
    ensures forall k :: HasKey(out, k) ==> HasKey(Put(out, f), k)
  {
    var r := Put(out, f);
    if out == [] || out[0].key == f.key {
      assert r[0] == f;
      forall k | HasKey(out, k) ensures HasKey(r, k) {
        var i :| 0 <= i < |out| && out[i].key == k;
        assert r[i].key == k;
      }
    } else {
      var rest := Put(out[1..], f);
      PutAdds(out[1..], f);
      assert r == [out[0]] + rest;
      forall k | HasKey(rest, k) || k == out[0].key ensures HasKey(r, k) {
        if k == out[0].key {
          assert r[0].key == k;
        } else {
          var i :| 0 <= i < |rest| && rest[i].key == k;
          assert r[i + 1].key == k;
        }
      }
      forall k | HasKey(out, k) ensures HasKey(r, k) {
        var i :| 0 <= i < |out| && out[i].key == k;
        assert i > 0 ==> out[1..][i - 1].key == k;
      }
    }
  }

  /** Assigning a key replaces its field, and leaves every other. */
  lemma {:induction false} PutExactly(out: seq<Field>, f: Field, x: Field)
    requires DistinctKeys(out)
    ensures x in Put(out, f) <==> x == f || (x in out && x.key != f.key)
  {
    if out != [] {
      assert out == [out[0]] + out[1..];
      if out[0].key == f.key {
        assert forall i | 0 <= i < |out[1..]| :: out[1..][i].key != f.key;
      } else {
        PutExactly(out[1..], f, x);
      }
    }
  }

  /** Redaction loses nothing but secrets and NULs. */
  lemma {:induction false} RedactRepresents(v: Json, redacted: seq<string>)
    ensures Represents(v, Redact(v, redacted), redacted)
    decreases v, 0
  {
    match v
    case Obj(fields) => RedactedFieldsRepresent(fields, redacted);
    case Arr(items) => RedactedItemsRepresent(items, redacted);
    case _ =>
  }

  lemma {:induction false} RedactedItemsRepresent(items: seq<Json>, redacted: seq<string>)
    ensures forall i | 0 <= i < |items| :: Represents(items[i], RedactItems(items, redacted)[i], redacted)
    decreases items, 0
  {
    if items != [] {
      RedactedItemsRepresent(items[..|items| - 1], redacted);
      RedactRepresents(items[|items| - 1], redacted);
    }
  }

  lemma {:induction false} RedactedFieldsRepresent(fields: seq<Field>, redacted: seq<string>)
    ensures FieldsRepresent(fields, RedactFields(fields, redacted), redacted)
    decreases fields, 0
  {
    if fields != [] {
      RedactedFieldsRepresent(fields[..|fields| - 1], redacted);
      RedactedFieldRepresents(fields[|fields| - 1], redacted);
      RedactOneMore(fields, redacted);
    }
  }

  lemma {:induction false} RedactOneMore(fields: seq<Field>, redacted: seq<string>)
    requires fields != []
    requires FieldsRepresent(fields[..|fields| - 1], RedactFields(fields[..|fields| - 1], redacted), redacted)
    requires FieldRepresents(fields[|fields| - 1], RedactField(fields[|fields| - 1], redacted), redacted)
    ensures FieldsRepresent(fields, RedactFields(fields, redacted), redacted)
  {
    var before, f := fields[..|fields| - 1], fields[|fields| - 1];
    FieldsRepresentMore(before, RedactFields(before, redacted), f, RedactField(f, redacted), redacted);
    assert fields == before + [f];
  }

  lemma {:induction false} RedactedFieldRepresents(f: Field, redacted: seq<string>)
    ensures FieldRepresents(f, RedactField(f, redacted), redacted)
    decreases f, 1
  {
    RedactRepresents(f.value, redacted);
  }

  lemma {:induction false} FieldsRepresentMore(before: seq<Field>, out: seq<Field>, f: Field, g: Field, redacted: seq<string>)
    requires FieldsRepresent(before, out, redacted) && FieldRepresents(f, g, redacted)
    ensures FieldsRepresent(before + [f], Put(out, g), redacted)
  {
    PutSources(before, out, f, g, redacted);
    PutKeys(before, out, f, g);
  }

  lemma {:induction false} PutSources(before: seq<Field>, out: seq<Field>, f: Field, g: Field, redacted: seq<string>)
    requires forall j | 0 <= j < |out| :: TakenFrom(before, out[j], redacted)
    requires FieldRepresents(f, g, redacted)
    ensures var r := Put(out, g); forall j | 0 <= j < |r| :: TakenFrom(before + [f], r[j], redacted)
  {
    var fields, r := before + [f], Put(out, g);
    PutAdds(out, g);
    forall j | 0 <= j < |r|
      ensures TakenFrom(fields, r[j], redacted)
    {
      assert r[j] in r;
      if r[j] == g {
        assert fields[|before|] == f;
      } else {
        var k :| 0 <= k < |out| && out[k] == r[j];
        assert TakenFrom(before, out[k], redacted);
        var i :| 0 <= i < |before| && FieldRepresents(before[i], out[k], redacted);
        assert fields[i] == before[i];
      }
    }
  }

  lemma {:induction false} PutKeys(before: seq<Field>, out: seq<Field>, f: Field, g: Field)
    requires forall i | 0 <= i < |before| :: HasKey(out, StripNul(before[i].key))
    requires g.key == StripNul(f.key)
    ensures var fields := before + [f]; forall i | 0 <= i < |fields| :: HasKey(Put(out, g), StripNul(fields[i].key))
  {
    PutAdds(out, g);
  }

  /** redact with its loops: a new map filled a key at a time, a list overwritten item by item. */
  method RedactTree(v: Json, redacted: seq<string>) returns (w: Json)
    ensures w == Redact(v, redacted)
    decreases v
  {
    match v {
      case Obj(fields) =>
        var out: seq<Field> := [];
        for i := 0 to |fields|
          invariant out == RedactFields(fields[..i], redacted)
        {
          assert fields[..i + 1][..i] == fields[..i];
          var key := StripNul(fields[i].key);
          if Sensitive(key, redacted) {
            out := Put(out, Field(key, Str(MARKER)));
          } else {
            var value := RedactTree(fields[i].value, redacted);
            out := Put(out, Field(key, value));
          }
        }
        assert fields[..|fields|] == fields;
        w := Obj(out);
      case Arr(items) =>
        var list := items;
        for i := 0 to |items|
          invariant |list| == |items| && list[..i] == RedactItems(items[..i], redacted) && list[i..] == items[i..]
        {
          assert items[..i + 1][..i] == items[..i] && list[i] == list[i..][0] == items[i];
          var item := RedactTree(list[i], redacted);
          assert (list[i := item])[..i + 1] == list[..i] + [item];
          assert (list[i := item])[i + 1..] == list[i..][1..] == items[i..][1..];
          list := list[i := item];
        }
        assert items[..|items|] == items && list[..|items|] == list;
        w := Arr(list);
      case Str(s) => w := Str(StripNul(s));
      case _ => w := v;
    }
  }

  // ---- Encoding ----

  const NOT_JSON := "{\"metadata_dropped\":\"not_json\"}"
  const TOO_LARGE := "{\"metadata_dropped\":\"too_large\"}"
  const EMPTY_OBJECT := "{}"
  const MIN_METADATA_BYTES := 64

  predicate IsAscii(s: string) { forall i | 0 <= i < |s| :: s[i] as int < 128 }

  /** The bytes of an ASCII text. */
  function Ascii(s: string): Bytes
    requires IsAscii(s)
  {
    seq(|s|, i requires 0 <= i < |s| => s[i] as int as byte)
  }

  lemma MarkersAreAscii()
    ensures IsAscii(NOT_JSON) && IsAscii(TOO_LARGE) && IsAscii(EMPTY_OBJECT)
  {
  }

  /**
   encodeMetadata: `generic` is the metadata after a JSON round trip, if it has one; `marshal` encodes a tree in bytes or
   fails. What is stored never exceeds the cap and is either a marker or the encoding of a clean tree.
   */
  method EncodeMetadata(generic: Option<Json>, empty: bool, marshal: Json -> Option<Bytes>, max: nat, redacted: seq<string>)
    returns (out: Bytes)
    requires max >= MIN_METADATA_BYTES
    ensures |out| <= max
    ensures empty ==> out == Ascii(EMPTY_OBJECT)
    ensures !empty && (generic.None? || marshal(Redact(generic.value, redacted)).None?) ==> out == Ascii(NOT_JSON)
    ensures !empty && generic.Some? && marshal(Redact(generic.value, redacted)).Some? ==>
      var raw := marshal(Redact(generic.value, redacted)).value;
      out == if |raw| <= max then raw else Ascii(TOO_LARGE)
    ensures generic.Some? ==> Clean(Redact(generic.value, redacted), redacted)
  {
    MarkersAreAscii();
    if generic.Some? {
      RedactIsClean(generic.value, redacted);
    }
    if empty {
      return Ascii(EMPTY_OBJECT);
    }
    if generic.None? {
      return Ascii(NOT_JSON);
    }
    var tree := RedactTree(generic.value, redacted);
    var raw := marshal(tree);
    if raw.None? {
      return Ascii(NOT_JSON);
    }
    if |raw.value| > max {
      return Ascii(TOO_LARGE);
    }
    return raw.value;
  }
}
