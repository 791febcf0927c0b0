/** Values shared by every part of the model: SQL NULL / Python None, and the two string
    operations the request handlers apply to their inputs. */
module Common {

  /** A nullable column, or a Python value that may be None. */
  datatype Option<+T> = None | Some(value: T)

  /** A JSON field as `(body.get(k) or "")` sees it: falsy, text, or something without `strip`. */
  datatype Field = Falsy | Given(text: string) | NotText

  /** `(body.get(k) or "").strip()`; None when it raises. */
  function Stripped(f: Field): Option<string> {
    match f
    case Falsy => Some("")
    case Given(text) => Some(Strip(text))
    case NotText => None
  }

  /** ASCII white space, the part of Python's `str.isspace` the model covers. */
  predicate IsSpace(c: char) {
    c == ' ' || '\t' <= c <= '\r' || '\U{1c}' <= c <= '\U{1f}'
  }

  /** Tab to carriage return, the four information separators, and space. */
  lemma SpaceCodes(c: char)
    ensures IsSpace(c) <==> c as int in {9, 10, 11, 12, 13, 28, 29, 30, 31, 32}
  {
  }

  function StripLeft(s: string): string {
    if s != "" && IsSpace(s[0]) then StripLeft(s[1..]) else s
  }

  function StripRight(s: string): string {
    if s != "" && IsSpace(s[|s| - 1]) then StripRight(s[..|s| - 1]) else s
  }

  /** Python's `str.strip()`. */
  function Strip(s: string): string {
    StripRight(StripLeft(s))
  }

  predicate Blank(s: string) {
    forall i :: 0 <= i < |s| ==> IsSpace(s[i])
  }

  lemma {:induction false} StripLeftSplit(s: string) returns (before: string)
    ensures s == before + StripLeft(s) && Blank(before)
    ensures StripLeft(s) != "" ==> !IsSpace(StripLeft(s)[0])
  {
    if s != "" && IsSpace(s[0]) {
      var rest := StripLeftSplit(s[1..]);
      before := [s[0]] + rest;
      assert s == [s[0]] + s[1..];
    } else {
      before := "";
    }
  }

  lemma {:induction false} StripRightSplit(s: string) returns (after: string)
    ensures s == StripRight(s) + after && Blank(after)
    ensures StripRight(s) != "" ==> !IsSpace(StripRight(s)[|StripRight(s)| - 1])
  {
    if s != "" && IsSpace(s[|s| - 1]) {
      var rest := StripRightSplit(s[..|s| - 1]);
      after := rest + [s[|s| - 1]];
      assert s == s[..|s| - 1] + [s[|s| - 1]];
    } else {
      after := "";
    }
  }

  /** Stripping removes exactly the white space at both ends. */
  lemma StripSplit(s: string) returns (before: string, after: string)
    ensures s == before + Strip(s) + after && Blank(before) && Blank(after)
    ensures Strip(s) != "" ==> !IsSpace(Strip(s)[0]) && !IsSpace(Strip(s)[|Strip(s)| - 1])
  {
    before := StripLeftSplit(s);
    after := StripRightSplit(StripLeft(s));
  }

  /** A stripped string is empty exactly when the original holds nothing but white space. */
  lemma StripEmptyIffBlank(s: string)
    ensures Strip(s) == "" <==> Blank(s)
  {
    var before, after := StripSplit(s);
    if Strip(s) != "" {
      assert s[|before|] == Strip(s)[0];
    }
  }

  function UpperChar(c: char): char {
    if 'a' <= c <= 'z' then c - 'a' + 'A' else c
  }

  /** Python's `str.upper()` on ASCII text. */
  function Upper(s: string): (u: string)
    ensures |u| == |s| && forall i :: 0 <= i < |s| ==> u[i] == UpperChar(s[i])
  {
    if s == "" then "" else [UpperChar(s[0])] + Upper(s[1..])
  }
}

/** Quotients rounded to the nearest integer. */
module Rounding {

  /** The nearest integer to n / d, halves up: SQL `round` on a non-negative numeric, and `Math.round`. */
  function Rounded(n: nat, d: nat): nat
    requires d > 0
  {
    (2 * n + d) / (2 * d)
  }

  /** No integer is nearer. */
  lemma RoundedBounds(n: nat, d: nat)
    requires d > 0
    ensures 2 * (Rounded(n, d) * d) <= 2 * n + d < 2 * (Rounded(n, d) * d) + 2 * d
  {
    var q := (2 * n + d) / (2 * d);
    assert q * (2 * d) <= 2 * n + d < q * (2 * d) + 2 * d;
    assert q * (2 * d) == 2 * (q * d);
  }

  lemma Products(a: nat, b: nat, d: nat)
    ensures a <= b ==> a * d <= b * d
    ensures a < b ==> a * d + d <= b * d
  {
    if a <= b {
      var c := b - a;
      assert (a + c) * d == a * d + c * d;
      if a < b {
        assert c * d == (c - 1) * d + d;
      }
    }
  }
}

/** Sequences as bags: what a fold that ignores order needs. */
module Bags {

  lemma CancelOne<T>(m: multiset<T>, n: multiset<T>, x: T)
    requires m + multiset{x} == n + multiset{x}
    ensures m == n
  {
    assert m == (m + multiset{x}) - multiset{x};
    assert n == (n + multiset{x}) - multiset{x};
  }

  lemma BagWithout<T>(s: seq<T>, i: nat)
    requires i < |s|
    ensures multiset(s) == multiset(s[..i] + s[i + 1..]) + multiset{s[i]}
  {
    assert s == s[..i] + [s[i]] + s[i + 1..];
  }

  /** Dropping one matching element from each of two permutations leaves permutations. */
  lemma DropMatching<T>(a: seq<T>, b: seq<T>) returns (i: nat)
    requires multiset(a) == multiset(b) && a != []
    ensures i < |b| && b[i] == a[|a| - 1]
    ensures multiset(a[..|a| - 1]) == multiset(b[..i] + b[i + 1..])
  {
    var before, last := a[..|a| - 1], a[|a| - 1];
    assert a == before + [last];
    assert last in multiset(b);
    i :| 0 <= i < |b| && b[i] == last;
    BagWithout(b, i);
    assert multiset(a) == multiset(before) + multiset{last};
    CancelOne(multiset(before), multiset(b[..i] + b[i + 1..]), last);
  }

  ghost predicate Increasing(at: seq<nat>) {
    forall i, j :: 0 <= i < j < |at| ==> at[i] < at[j]
  }

  /** These are the positions, in order, of all elements that pass. */
  ghost predicate Positions<T>(s: seq<T>, passes: T -> bool, at: seq<nat>) {
    && Increasing(at)
    && (forall i :: 0 <= i < |at| ==> at[i] < |s| && passes(s[at[i]]))
    && (forall k :: 0 <= k < |s| && passes(s[k]) ==> k in at)
  }

  lemma PositionsNext<T>(s: seq<T>, x: T, passes: T -> bool, at: seq<nat>)
    requires Positions(s, passes, at)
    ensures Positions(s + [x], passes, if passes(x) then at + [|s|] else at)
  {
    var all, more := s + [x], if passes(x) then at + [|s|] else at;
    forall i | 0 <= i < |more| ensures more[i] < |all| && passes(all[more[i]]) {
      assert i < |at| ==> more[i] == at[i] && all[at[i]] == s[at[i]];
    }
    forall k | 0 <= k < |all| && passes(all[k]) ensures k in more {
      if k < |s| {
        assert all[k] == s[k] && k in at;
      } else {
        assert more[|at|] == |s|;
      }
    }
  }
}
