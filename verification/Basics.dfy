/** Options, results and the ordering of strings.  Rust orders `String` by bytes of its UTF-8
    form, which is the order of the Unicode scalar values, that is, of Dafny's `char`. */
module Basics {

  datatype Option<+T> = None | Some(value: T) {
    function GetOr(default: T): T {
      match this
      case Some(v) => v
      case None => default
    }
  }

  datatype Result<+T, +E> = Ok(value: T) | Err(error: E)

  /** Lexicographic order on strings. */
  predicate Less(a: string, b: string) {
    b != [] && (a == [] || a[0] < b[0] || (a[0] == b[0] && Less(a[1..], b[1..])))
  }

  lemma {:induction false} LessTotal(a: string, b: string)
    ensures a == b || Less(a, b) || Less(b, a)
  {
    if a != [] && b != [] && a[0] == b[0] {
      LessTotal(a[1..], b[1..]);
      assert a == [a[0]] + a[1..] && b == [b[0]] + b[1..];
    }
  }

  lemma {:induction false} LessTransitive(a: string, b: string, c: string)
    requires Less(a, b) && Less(b, c)
    ensures Less(a, c)
  {
    if a != [] && a[0] == b[0] && b[0] == c[0] {
      LessTransitive(a[1..], b[1..], c[1..]);
    }
  }

  lemma {:induction false} LessIrreflexive(a: string)
    ensures !Less(a, a)
  {
    if a != [] {
      LessIrreflexive(a[1..]);
    }
  }

  lemma LessAsymmetric(a: string, b: string)
    requires Less(a, b)
    ensures !Less(b, a) && a != b
  {
    if Less(b, a) {
      LessTransitive(a, b, a);
    }
    LessIrreflexive(a);
  }

  /** Two strings that first differ at `p` are ordered by the characters there. */
  lemma {:induction false} LessAt(a: string, b: string, p: nat)
    requires p < |a| && p < |b| && a[..p] == b[..p] && a[p] < b[p]
    ensures Less(a, b)
  {
    if p > 0 {
      assert a[0] == a[..p][0] == b[..p][0] == b[0];
      assert a[1..][..p - 1] == a[..p][1..] == b[..p][1..] == b[1..][..p - 1];
      LessAt(a[1..], b[1..], p - 1);
    }
  }

  /** Conversely, equally long strings in order differ first at some `p`. */
  lemma {:induction false} FirstDifference(a: string, b: string) returns (p: nat)
    requires |a| == |b| && Less(a, b)
    ensures p < |a| && a[..p] == b[..p] && a[p] < b[p]
  {
    if a[0] < b[0] {
      p := 0;
    } else {
      var q := FirstDifference(a[1..], b[1..]);
      p := q + 1;
      assert a[..p] == [a[0]] + a[1..][..q] && b[..p] == [b[0]] + b[1..][..q];
    }
  }

  // ---------------------------------------------------------------------------------------------
  // Ordered collections: `BTreeSet` and `BTreeMap` iterate in key order.
  // ---------------------------------------------------------------------------------------------

  ghost predicate StrictlySorted(xs: seq<string>) {
    forall i, j | 0 <= i < j < |xs| :: Less(xs[i], xs[j])
  }

  predicate IsLeast(m: string, s: set<string>) {
    m in s && forall x | x in s && x != m :: Less(m, x)
  }

  lemma {:induction false} LeastExists(s: set<string>) returns (m: string)
    requires s != {}
    ensures IsLeast(m, s)
  {
    var x :| x in s;
    if s == {x} {
      m := x;
    } else {
      var y := LeastExists(s - {x});
      LessTotal(x, y);
      if Less(x, y) {
        m := x;
        forall z | z in s && z != x ensures Less(x, z) {
          if z != y { LessTransitive(x, y, z); }
        }
      } else {
        m := y;
      }
    }
  }

  lemma LeastIsUnique(s: set<string>)
    requires s != {}
    ensures exists m :: IsLeast(m, s)
    ensures forall a, b | IsLeast(a, s) && IsLeast(b, s) :: a == b
  {
    var least := LeastExists(s);
    forall a, b | IsLeast(a, s) && IsLeast(b, s) ensures a == b {
      if a != b { LessAsymmetric(a, b); }
    }
  }

  /** The order in which a `BTreeSet` yields its elements. */
  function SortedKeys(s: set<string>): (r: seq<string>)
    ensures StrictlySorted(r)
    ensures forall x :: x in r <==> x in s
    ensures |r| == |s|
  {
    if s == {} then []
    else
      LeastIsUnique(s);
      var m :| IsLeast(m, s);
      [m] + SortedKeys(s - {m})
  }

  /** A strictly sorted sequence is determined by its elements. */
  lemma {:induction false} SortedUnique(a: seq<string>, b: seq<string>)
    requires StrictlySorted(a) && StrictlySorted(b)
    requires forall x :: x in a <==> x in b
    ensures a == b
  {
    assert a != [] ==> a[0] in b;
    assert b != [] ==> b[0] in a;
    if a != [] && b != [] {
      HeadsAgree(a, b);
      TailMembers(a);
      TailMembers(b);
      SortedUnique(a[1..], b[1..]);
    }
  }

  lemma HeadsAgree(a: seq<string>, b: seq<string>)
    requires StrictlySorted(a) && StrictlySorted(b) && a != [] && b != []
    requires forall x :: x in a <==> x in b
    ensures a[0] == b[0]
  {
    assert a[0] in b && b[0] in a;
    var i :| 0 <= i < |b| && b[i] == a[0];
    var j :| 0 <= j < |a| && a[j] == b[0];
    if i != 0 && j != 0 {
      LessAsymmetric(a[0], b[0]);
    }
  }

  lemma TailMembers(a: seq<string>)
    requires StrictlySorted(a) && a != []
    ensures forall x :: x in a[1..] <==> x in a && x != a[0]
  {
    forall x | x in a[1..] ensures x in a && x != a[0] {
      var i :| 0 <= i < |a[1..]| && a[1..][i] == x;
      LessAsymmetric(a[0], a[i + 1]);
    }
  }

  // ---------------------------------------------------------------------------------------------
  // `str::trim`.
  // ---------------------------------------------------------------------------------------------

  /** The characters with the Unicode property White_Space. */
  predicate IsWhitespace(c: char) {
    var n := c as int;
    || 0x09 <= n <= 0x0D || n == 0x20 || n == 0x85 || n == 0xA0 || n == 0x1680
    || 0x2000 <= n <= 0x200A || n == 0x2028 || n == 0x2029 || n == 0x202F || n == 0x205F || n == 0x3000
  }

  function TrimStart(s: string): string {
    if s != [] && IsWhitespace(s[0]) then TrimStart(s[1..]) else s
  }

  function TrimEnd(s: string): string {
    if s != [] && IsWhitespace(s[|s| - 1]) then TrimEnd(s[..|s| - 1]) else s
  }

  function Trim(s: string): string { TrimEnd(TrimStart(s)) }

  predicate Blank(s: string) { Trim(s) == [] }

  lemma {:induction false} TrimEndKeepsHead(s: string)
    requires s != [] && !IsWhitespace(s[0])
    ensures TrimEnd(s) != [] && TrimEnd(s)[0] == s[0]
  {
    if IsWhitespace(s[|s| - 1]) {
      TrimEndKeepsHead(s[..|s| - 1]);
    }
  }

  lemma {:induction false} TrimStartStops(s: string)
    ensures var t := TrimStart(s); t == [] || !IsWhitespace(t[0])
  {
    if s != [] && IsWhitespace(s[0]) {
      TrimStartStops(s[1..]);
    }
  }

  lemma {:induction false} TrimEndStops(s: string)
    ensures var t := TrimEnd(s); t == [] || !IsWhitespace(t[|t| - 1])
  {
    if s != [] && IsWhitespace(s[|s| - 1]) {
      TrimEndStops(s[..|s| - 1]);
    }
  }

  lemma TrimIdempotent(s: string)
    ensures Trim(Trim(s)) == Trim(s)
  {
    var t := TrimStart(s);
    TrimStartStops(s);
    TrimEndStops(t);
    if t != [] {
      TrimEndKeepsHead(t);
    }
  }

  predicate AllWhitespace(s: string) { forall c | c in s :: IsWhitespace(c) }

  /** Trimming drops whitespace from the two ends, all of it and nothing else. */
  lemma TrimExactly(s: string) returns (before: string, after: string)
    ensures s == before + Trim(s) + after && AllWhitespace(before) && AllWhitespace(after)
    ensures Trim(s) != [] ==> !IsWhitespace(Trim(s)[0]) && !IsWhitespace(Trim(s)[|Trim(s)| - 1])
  {
    var t := TrimStart(s);
    before := TrimStartDrops(s);
    after := TrimEndDrops(t);
    TrimStartStops(s);
    TrimEndStops(t);
    if t != [] { TrimEndKeepsHead(t); }
    assert before + t == before + Trim(s) + after;
  }

  lemma {:induction false} TrimStartDrops(s: string) returns (before: string)
    ensures s == before + TrimStart(s) && AllWhitespace(before)
  {
    before := "";
    if s != [] && IsWhitespace(s[0]) {
      var rest := TrimStartDrops(s[1..]);
      before := [s[0]] + rest;
    }
  }

  lemma {:induction false} TrimEndDrops(s: string) returns (after: string)
    ensures s == TrimEnd(s) + after && AllWhitespace(after)
  {
    after := "";
    if s != [] && IsWhitespace(s[|s| - 1]) {
      var rest := TrimEndDrops(s[..|s| - 1]);
      after := rest + [s[|s| - 1]];
    }
  }
}
