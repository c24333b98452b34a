/** The string operations the modelled code takes from Go's standard library. */
module Strings {

  /** strings.Split with a one-character separator. */
  function Split(s: string, sep: char): (pieces: seq<string>)
    ensures |pieces| >= 1
    ensures forall p | p in pieces :: sep !in p
  {
    if s == [] then [[]]
    else
      var rest := Split(s[1..], sep);
      if s[0] == sep then [[]] + rest else [[s[0]] + rest[0]] + rest[1..]
  }

  /** strings.Join with a one-character separator. */
  function Join(pieces: seq<string>, sep: char): string {
    if |pieces| == 0 then []
    else if |pieces| == 1 then pieces[0]
    else pieces[0] + [sep] + Join(pieces[1..], sep)
  }

  /** `s[i..j]` lies between two separators, or the ends, and holds none. */
  predicate PieceAt(s: string, sep: char, i: nat, j: nat) {
    && i <= j <= |s|
    && sep !in s[i..j]
    && (i == 0 || s[i - 1] == sep)
    && (j == |s| || s[j] == sep)
  }

  lemma {:induction false} FirstPiece(s: string, sep: char, j: nat)
    requires PieceAt(s, sep, 0, j)
    ensures Split(s, sep)[0] == s[0..j]
  {
    if j > 0 {
      assert s[0] in s[0..j];
      assert s[1..][0..j - 1] == s[0..j][1..];
      FirstPiece(s[1..], sep, j - 1);
      assert s[0..j] == [s[0]] + s[1..][0..j - 1];
    }
  }

  lemma {:induction false} PiecesAreSplit(s: string, sep: char, i: nat, j: nat)
    requires PieceAt(s, sep, i, j)
    ensures s[i..j] in Split(s, sep)
    ensures i > 0 ==> s[i..j] in Split(s, sep)[1..]
  {
    if i == 0 {
      FirstPiece(s, sep, j);
    } else {
      var rest := Split(s[1..], sep);
      assert s[1..][i - 1..j - 1] == s[i..j];
      PiecesAreSplit(s[1..], sep, i - 1, j - 1);
      if s[0] == sep {
        assert Split(s, sep)[1..] == rest;
      } else {
        assert i > 1;
        assert Split(s, sep)[1..] == rest[1..];
      }
    }
  }

  /** A piece of the tail is a piece of the whole, unless it is the tail's first and no separator precedes it. */
  lemma PieceShifts(s: string, sep: char, i: nat, j: nat)
    requires s != [] && PieceAt(s[1..], sep, i, j) && (i > 0 || s[0] == sep)
    ensures PieceAt(s, sep, i + 1, j + 1) && s[1..][i..j] == s[i + 1..j + 1]
  {
    var tail := s[1..];
    assert forall k | 0 <= k < |tail| :: tail[k] == s[k + 1];
    assert tail[i..j] == s[i + 1..j + 1];
  }

  /** The tail's first piece gains the character before it. */
  lemma PieceGrows(s: string, sep: char, j: nat)
    requires s != [] && PieceAt(s[1..], sep, 0, j) && s[0] != sep
    ensures PieceAt(s, sep, 0, j + 1) && s[0..j + 1] == [s[0]] + s[1..][0..j]
  {
    var tail := s[1..];
    assert forall k | 0 <= k < |tail| :: tail[k] == s[k + 1];
    assert s[0..j + 1] == [s[0]] + tail[0..j];
  }

  lemma {:induction false} SplitIsPieces(s: string, sep: char, k: nat) returns (i: nat, j: nat)
    requires k < |Split(s, sep)|
    ensures PieceAt(s, sep, i, j) && Split(s, sep)[k] == s[i..j]
    ensures k == 0 <==> i == 0
  {
    if s == [] || (s[0] == sep && k == 0) {
      i, j := 0, 0;
    } else if s[0] == sep {
      i, j := SplitIsPieces(s[1..], sep, k - 1);
      PieceShifts(s, sep, i, j);
      i, j := i + 1, j + 1;
    } else {
      i, j := SplitIsPieces(s[1..], sep, k);
      if k == 0 {
        PieceGrows(s, sep, j);
        j := j + 1;
      } else {
        PieceShifts(s, sep, i, j);
        i, j := i + 1, j + 1;
      }
    }
  }

  predicate IsSpace(c: char) { c in {' ', '\t', '\n', '\r', 11 as char, 12 as char} }

  function TrimLeft(s: string): string {
    if s != [] && IsSpace(s[0]) then TrimLeft(s[1..]) else s
  }

  function TrimRight(s: string): string {
    if s != [] && IsSpace(s[|s| - 1]) then TrimRight(s[..|s| - 1]) else s
  }

  /** strings.TrimSpace on ASCII. */
  function TrimSpace(s: string): string { TrimRight(TrimLeft(s)) }

  function Lower(c: char): char {
    if 'A' <= c <= 'Z' then c - 'A' + 'a' else c
  }

  /** strings.EqualFold on ASCII. */
  predicate EqualFold(a: string, b: string) {
    |a| == |b| && forall i | 0 <= i < |a| :: Lower(a[i]) == Lower(b[i])
  }

  /** strconv.Itoa of a non-negative number. */
  function Decimal(n: nat): (digits: string)
    ensures digits != [] && forall c | c in digits :: '0' <= c <= '9'
  {
    if n < 10 then ['0' + n as char] else Decimal(n / 10) + ['0' + (n % 10) as char]
  }
}
