/** Scan-Job names: the DNS-1123 sanitiser, the truncated prefix and the short image hash. */
module JobName {

  const MAX_PREFIX := 48  // 63 - 15: room for "nsscan-" and "-<7 hex digits>"
  const HASH_LENGTH := 7

  predicate IsAlnum(c: char) { '0' <= c <= '9' || 'a' <= c <= 'z' || 'A' <= c <= 'Z' }

  predicate IsLowerAlnum(c: char) { '0' <= c <= '9' || 'a' <= c <= 'z' }

  function Lower(c: char): char {
    if 'A' <= c <= 'Z' then (c as int + 32) as char else c
  }

  function LowerAll(s: string): string {
    seq(|s|, i requires 0 <= i < |s| => Lower(s[i]))
  }

  // ---------------------------------------------------------------------------------------------
  // What the sanitiser computes, said without its loop.
  // ---------------------------------------------------------------------------------------------

  /** Length of the longest alphanumeric prefix. */
  function RunLength(s: string): (n: nat)
    ensures n <= |s|
    ensures forall i | 0 <= i < n :: IsAlnum(s[i])
    ensures n < |s| ==> !IsAlnum(s[n])
  {
    if s == [] || !IsAlnum(s[0]) then 0 else 1 + RunLength(s[1..])
  }

  /** The non-empty maximal alphanumeric runs of `s`, in order, lowercased. */
  function Words(s: string): seq<string> {
    if s == [] then []
    else if !IsAlnum(s[0]) then Words(s[1..])
    else [LowerAll(s[..RunLength(s)])] + Words(s[RunLength(s)..])
  }

  /** Words joined by single hyphens. */
  function Join(ws: seq<string>): string {
    if ws == [] then ""
    else if |ws| == 1 then ws[0]
    else Join(ws[..|ws| - 1]) + "-" + ws[|ws| - 1]
  }

  function Sanitized(s: string): string { Join(Words(s)) }

  predicate IsWord(w: string) { w != [] && forall c | c in w :: IsLowerAlnum(c) }

  predicate AllWords(ws: seq<string>) { forall i | 0 <= i < |ws| :: IsWord(ws[i]) }

  lemma {:induction false} WordsAreWords(s: string)
    ensures AllWords(Words(s))
    decreases |s|
  {
    if s != [] && !IsAlnum(s[0]) {
      WordsAreWords(s[1..]);
    } else if s != [] {
      WordsAreWords(s[RunLength(s)..]);
    }
  }

  // How the words change when one character is appended.

  lemma {:induction false} WordsSkip(s: string, c: char)
    requires !IsAlnum(c)
    ensures Words(s + [c]) == Words(s)
    decreases |s|
  {
    if s == [] {
      assert (s + [c])[1..] == [];
    } else if !IsAlnum(s[0]) {
      assert (s + [c])[1..] == s[1..] + [c];
      WordsSkip(s[1..], c);
    } else {
      var k := RunLength(s);
      RunLengthAppend(s, c);
      assert (s + [c])[..k] == s[..k] && (s + [c])[k..] == s[k..] + [c];
      WordsSkip(s[k..], c);
    }
  }

  lemma {:induction false} WordsStart(s: string, c: char)
    requires IsAlnum(c) && (s == [] || !IsAlnum(s[|s| - 1]))
    ensures Words(s + [c]) == Words(s) + [[Lower(c)]]
    decreases |s|
  {
    if s == [] {
      assert RunLength([c]) == 1 by { assert [c][1..] == []; }
      assert s + [c] == [c] && [c][..1] == [c] && [c][1..] == [];
      assert LowerAll([c]) == [Lower(c)];
      assert Words([c]) == [LowerAll([c])] + Words([]);
    } else if !IsAlnum(s[0]) {
      assert (s + [c])[1..] == s[1..] + [c];
      WordsStart(s[1..], c);
    } else {
      var k := RunLength(s);
      assert k < |s|;
      RunLengthAppend(s, c);
      assert (s + [c])[..k] == s[..k] && (s + [c])[k..] == s[k..] + [c];
      WordsStart(s[k..], c);
    }
  }

  /** The words with a character appended to the last one. */
  function ExtendLast(ws: seq<string>, c: char): seq<string>
    requires ws != []
  {
    ws[..|ws| - 1] + [ws[|ws| - 1] + [c]]
  }

  lemma {:induction false} WordsExtend(s: string, c: char)
    requires IsAlnum(c) && s != [] && IsAlnum(s[|s| - 1])
    ensures Words(s) != []
    ensures Words(s + [c]) == ExtendLast(Words(s), Lower(c))
    decreases |s|
  {
    if !IsAlnum(s[0]) {
      assert (s + [c])[1..] == s[1..] + [c];
      WordsExtend(s[1..], c);
    } else if RunLength(s) == |s| {
      RunExtends(s, c);
    } else {
      var k := RunLength(s);
      RunLengthAppend(s, c);
      assert (s + [c])[..k] == s[..k] && (s + [c])[k..] == s[k..] + [c];
      WordsExtend(s[k..], c);
      ExtendLastCons(LowerAll(s[..k]), Words(s[k..]), Lower(c));
    }
  }

  lemma {:induction false} RunExtends(s: string, c: char)
    requires IsAlnum(c) && s != [] && RunLength(s) == |s|
    ensures Words(s) == [LowerAll(s)] && Words(s + [c]) == [LowerAll(s) + [Lower(c)]]
  {
    RunLengthAppend(s, c);
    assert s[..|s|] == s && s[|s|..] == [];
    var t := s + [c];
    assert t[..|t|] == t && t[|t|..] == [];
    assert LowerAll(t) == LowerAll(s) + [Lower(c)];
    assert Words(t) == [LowerAll(t)] + Words([]);
  }

  lemma {:induction false} ExtendLastCons(w: string, ws: seq<string>, c: char)
    requires ws != []
    ensures ExtendLast([w] + ws, c) == [w] + ExtendLast(ws, c)
  {
    assert ([w] + ws)[..|ws|] == [w] + ws[..|ws| - 1];
  }

  lemma {:induction false} RunLengthAppend(s: string, c: char)
    ensures RunLength(s) < |s| ==> RunLength(s + [c]) == RunLength(s)
    ensures RunLength(s) == |s| ==> RunLength(s + [c]) == |s| + (if IsAlnum(c) then 1 else 0)
  {
    if s == [] {
      assert ([c])[1..] == [] && s + [c] == [c];
    } else if IsAlnum(s[0]) {
      assert (s + [c])[1..] == s[1..] + [c];
      RunLengthAppend(s[1..], c);
    }
  }

  // ---------------------------------------------------------------------------------------------
  // The sanitiser as written.
  // ---------------------------------------------------------------------------------------------

  function TrimHyphensStart(s: string): string {
    if s != [] && s[0] == '-' then TrimHyphensStart(s[1..]) else s
  }

  function TrimHyphensEnd(s: string): string {
    if s != [] && s[|s| - 1] == '-' then TrimHyphensEnd(s[..|s| - 1]) else s
  }

  /** A joined sequence of words neither starts nor ends with a hyphen, and holds nothing but
      lower-case letters, digits and hyphens. */
  lemma {:induction false} JoinShape(ws: seq<string>)
    requires AllWords(ws) && ws != []
    ensures var j := Join(ws);
            j != [] && IsLowerAlnum(j[0]) && IsLowerAlnum(j[|j| - 1])
            && forall c | c in j :: IsLowerAlnum(c) || c == '-'
  {
    if |ws| > 1 {
      var init := ws[..|ws| - 1];
      JoinShape(init);
      assert Join(ws) == Join(init) + "-" + ws[|ws| - 1];
    }
  }

  /** `sanitize_dns1123`: one pass over the characters, a trailing-hyphen flag, and a final trim. */
  method SanitizeDns1123(s: string) returns (r: string)
    ensures r == Sanitized(s)
  {
    var out: string := "";
    var lastWasHyphen := false;
    WordsAreWords(s[..0]);
    for i := 0 to |s|
      invariant AllWords(Words(s[..i]))
      invariant out == Join(Words(s[..i])) + (if lastWasHyphen then "-" else "")
      invariant lastWasHyphen <==> Words(s[..i]) != [] && !IsAlnum(s[i - 1])
      invariant i > 0 && IsAlnum(s[i - 1]) ==> Words(s[..i]) != []
    {
      var ch := s[i];
      var mapped := if IsAlnum(ch) then Lower(ch) else '-';
      WordsAreWords(s[..i + 1]);
      Grow(s, i);
      if Words(s[..i]) != [] { JoinShape(Words(s[..i])); }
      if mapped == '-' {
        if !lastWasHyphen && out != [] {
          out := out + ['-'];
          lastWasHyphen := true;
        }
      } else {
        out := out + [mapped];
        lastWasHyphen := false;
      }
    }
    assert s[..|s|] == s;
    if Words(s) != [] { JoinShape(Words(s)); }
    r := TrimHyphensEnd(TrimHyphensStart(out));
    TrimsOnlyTheFlag(Join(Words(s)), lastWasHyphen);
  }

  /** One iteration of the sanitiser, on the specification's side. */
  lemma {:induction false} Grow(s: string, i: nat)
    requires i < |s|
    ensures !IsAlnum(s[i]) ==> Words(s[..i + 1]) == Words(s[..i])
    ensures IsAlnum(s[i]) ==>
              Join(Words(s[..i + 1])) ==
                Join(Words(s[..i])) + (if Words(s[..i]) != [] && !IsAlnum(s[i - 1]) then "-" else "") + [Lower(s[i])]
    ensures IsAlnum(s[i]) ==> Words(s[..i + 1]) != []
  {
    var p, c := s[..i], s[i];
    assert s[..i + 1] == p + [c];
    if !IsAlnum(c) {
      WordsSkip(p, c);
    } else if i == 0 || !IsAlnum(s[i - 1]) {
      WordsStart(p, c);
      JoinAppend(Words(p), [Lower(c)]);
    } else {
      assert p[|p| - 1] == s[i - 1];
      WordsExtend(p, c);
      JoinExtend(Words(p), Lower(c));
    }
  }

  lemma {:induction false} JoinAppend(ws: seq<string>, w: string)
    ensures Join(ws + [w]) == Join(ws) + (if ws != [] then "-" else "") + w
  {
    assert (ws + [w])[..|ws|] == ws;
  }

  lemma {:induction false} JoinExtend(ws: seq<string>, c: char)
    requires ws != []
    ensures Join(ExtendLast(ws, c)) == Join(ws) + [c]
  {
    var init, w := ws[..|ws| - 1], ws[|ws| - 1];
    var lead := Join(init) + (if init != [] then "-" else "");
    assert ws == init + [w];
    assert Join(ws) == lead + w by { JoinAppend(init, w); }
    assert Join(init + [w + [c]]) == lead + (w + [c]) by { JoinAppend(init, w + [c]); }
    assert lead + (w + [c]) == lead + w + [c];
  }

  lemma TrimsOnlyTheFlag(j: string, flag: bool)
    requires j != [] ==> j[0] != '-' && j[|j| - 1] != '-'
    requires j == [] ==> !flag
    ensures TrimHyphensEnd(TrimHyphensStart(j + (if flag then "-" else ""))) == j
  {
    var out := j + (if flag then "-" else "");
    assert TrimHyphensStart(out) == out;
    if flag {
      assert out[..|out| - 1] == j;
    } else {
      assert out == j;
    }
  }

  // ---------------------------------------------------------------------------------------------
  // Idempotence.
  // ---------------------------------------------------------------------------------------------

  lemma {:induction false} WordsAppendWord(s: string, w: string)
    requires IsWord(w) && (s == [] || !IsAlnum(s[|s| - 1]))
    ensures Words(s + w) == Words(s) + [w]
    decreases |w|
  {
    var init, c := w[..|w| - 1], w[|w| - 1];
    WordLast(w);
    if init == [] {
      assert w == [c];
      WordsStart(s, c);
    } else {
      var t := s + init;
      WordsAppendWord(s, init);
      assert t[|t| - 1] == init[|init| - 1];
      WordLast(init);
      WordsExtend(t, c);
      ExtendLastSnoc(Words(s), init, c);
      AppendLast(s, w);
    }
  }

  lemma {:induction false} WordLast(w: string)
    requires IsWord(w)
    ensures IsAlnum(w[|w| - 1]) && Lower(w[|w| - 1]) == w[|w| - 1]
    ensures |w| > 1 ==> IsWord(w[..|w| - 1])
    ensures w == w[..|w| - 1] + [w[|w| - 1]]
  {
    assert w[|w| - 1] in w && IsLowerAlnum(w[|w| - 1]);
    assert forall c | c in w[..|w| - 1] :: c in w;
  }

  lemma {:induction false} AppendLast(s: string, w: string)
    requires w != []
    ensures (s + w[..|w| - 1]) + [w[|w| - 1]] == s + w
  {
  }

  lemma {:induction false} ExtendLastSnoc(ws: seq<string>, w: string, c: char)
    ensures ExtendLast(ws + [w], c) == ws + [w + [c]]
  {
    assert (ws + [w])[..|ws|] == ws;
  }

  lemma {:induction false} WordsOfJoin(ws: seq<string>)
    requires AllWords(ws)
    ensures Words(Join(ws)) == ws
  {
    if ws != [] {
      var init, w := ws[..|ws| - 1], ws[|ws| - 1];
      assert ws == init + [w];
      WordsOfJoin(init);
      if init == [] {
        WordsAppendWord("", w);
        assert "" + w == w;
      } else {
        WordsSkip(Join(init), '-');
        WordsAppendWord(Join(init) + "-", w);
      }
    }
  }

  lemma SanitizeIdempotent(s: string)
    ensures Sanitized(Sanitized(s)) == Sanitized(s)
  {
    WordsAreWords(s);
    WordsOfJoin(Words(s));
  }

  /** The sanitiser collapses exactly the differences that do not show in the words. */
  lemma SanitizeCollapses(s: string, t: string)
    ensures Sanitized(s) == Sanitized(t) <==> Words(s) == Words(t)
  {
    WordsAreWords(s);
    WordsAreWords(t);
    WordsOfJoin(Words(s));
    WordsOfJoin(Words(t));
  }

  // ---------------------------------------------------------------------------------------------
  // Short hashes.
  // ---------------------------------------------------------------------------------------------

  /** SHA-256 as an opaque function onto 32 bytes. */
  type Digest = f: string -> seq<int> | IsDigest(f) witness s => seq(32, i => 0)

  ghost predicate IsDigest(f: string -> seq<int>) {
    forall s: string :: |f(s)| == 32 && forall i | 0 <= i < 32 :: 0 <= f(s)[i] < 256
  }

  function HexDigit(n: int): char
    requires 0 <= n < 16
  {
    "0123456789abcdef"[n]
  }

  function Hex(bytes: seq<int>): (r: string)
    requires forall i | 0 <= i < |bytes| :: 0 <= bytes[i] < 256
    ensures |r| == 2 * |bytes|
  {
    if bytes == [] then "" else [HexDigit(bytes[0] / 16), HexDigit(bytes[0] % 16)] + Hex(bytes[1..])
  }

  predicate IsHexDigit(c: char) { '0' <= c <= '9' || 'a' <= c <= 'f' }

  predicate IsShortHash(h: string) { |h| == HASH_LENGTH && forall c | c in h :: IsHexDigit(c) }

  function ShortImageHash(digest: Digest, imageRef: string): string {
    Hex(digest(imageRef))[..HASH_LENGTH]
  }

  lemma {:induction false} HexDigits(bytes: seq<int>)
    requires forall i | 0 <= i < |bytes| :: 0 <= bytes[i] < 256
    ensures forall c | c in Hex(bytes) :: IsHexDigit(c)
  {
    if bytes != [] {
      HexDigits(bytes[1..]);
    }
  }

  lemma ShortHashShape(digest: Digest, imageRef: string)
    ensures IsShortHash(ShortImageHash(digest, imageRef))
  {
    HexDigits(digest(imageRef));
  }

  function DigitValue(c: char): nat { if '0' <= c <= '9' then c as int - 48 else if 'a' <= c then c as int - 87 else 0 }

  /** The number a string of hexadecimal digits stands for. */
  function HexValue(s: string): nat {
    if s == [] then 0 else HexValue(s[..|s| - 1]) * 16 + DigitValue(s[|s| - 1])
  }

  lemma {:induction false} HexOfDigest(digest: Digest, imageRef: string)
    ensures var d := digest(imageRef);
            ShortImageHash(digest, imageRef)
              == [HexDigit(d[0] / 16), HexDigit(d[0] % 16), HexDigit(d[1] / 16), HexDigit(d[1] % 16),
                  HexDigit(d[2] / 16), HexDigit(d[2] % 16), HexDigit(d[3] / 16)]
  {
    var d := digest(imageRef);
    HexStep(d);
    HexStep(d[1..]);
    HexStep(d[2..]);
    HexStep(d[3..]);
    assert d[1..][1..] == d[2..] && d[2..][1..] == d[3..];
  }

  lemma HexStep(bytes: seq<int>)
    requires bytes != [] && forall i | 0 <= i < |bytes| :: 0 <= bytes[i] < 256
    ensures Hex(bytes) == [HexDigit(bytes[0] / 16), HexDigit(bytes[0] % 16)] + Hex(bytes[1..])
  {
  }

  lemma HexDigitValue(n: int)
    requires 0 <= n < 16
    ensures DigitValue(HexDigit(n)) == n
  {
  }

  lemma HexValueStep(s: string, n: int)
    requires 0 <= n < 16
    ensures HexValue(s + [HexDigit(n)]) == HexValue(s) * 16 + n
  {
    assert (s + [HexDigit(n)])[..|s|] == s;
    HexDigitValue(n);
  }

  function HexByte(b: int): string
    requires 0 <= b < 256
  {
    [HexDigit(b / 16), HexDigit(b % 16)]
  }

  lemma HexByteValue(s: string, b: int)
    requires 0 <= b < 256
    ensures HexValue(s + HexByte(b)) == HexValue(s) * 256 + b
  {
    HexValueStep(s, b / 16);
    HexValueStep(s + [HexDigit(b / 16)], b % 16);
    assert s + [HexDigit(b / 16)] + [HexDigit(b % 16)] == s + HexByte(b);
  }

  /** The short hash is the first 28 bits of the digest, as a number in hexadecimal. */
  lemma ShortHashIsDigest(digest: Digest, imageRef: string)
    ensures var d := digest(imageRef);
            HexValue(ShortImageHash(digest, imageRef)) == ((d[0] * 256 + d[1]) * 256 + d[2]) * 16 + d[3] / 16
  {
    var d := digest(imageRef);
    HexOfDigest(digest, imageRef);
    var one := "" + HexByte(d[0]);
    var two := one + HexByte(d[1]);
    var three := two + HexByte(d[2]);
    assert ShortImageHash(digest, imageRef) == three + [HexDigit(d[3] / 16)];
    HexByteValue("", d[0]);
    HexByteValue(one, d[1]);
    HexByteValue(two, d[2]);
    HexValueStep(three, d[3] / 16);
  }

  lemma HexByteDecides(a: int, b: int)
    requires 0 <= a < 256 && 0 <= b < 256
    ensures HexByte(a) == HexByte(b) <==> a == b
    ensures HexDigit(a / 16) == HexDigit(b / 16) <==> a / 16 == b / 16
  {
    HexByteValue("", a);
    HexByteValue("", b);
    assert "" + HexByte(a) == HexByte(a) && "" + HexByte(b) == HexByte(b);
    HexDigitValue(a / 16);
    HexDigitValue(b / 16);
  }

  lemma HexSplit(digest: Digest, imageRef: string)
    ensures var d, h := digest(imageRef), ShortImageHash(digest, imageRef);
            && h == HexByte(d[0]) + HexByte(d[1]) + HexByte(d[2]) + [HexDigit(d[3] / 16)]
            && h[..2] == HexByte(d[0]) && h[2..4] == HexByte(d[1]) && h[4..6] == HexByte(d[2])
            && h[6] == HexDigit(d[3] / 16)
  {
    HexOfDigest(digest, imageRef);
  }

  /** So two images share a short hash exactly when their digests agree in those bits. */
  lemma HashesCoincide(digest: Digest, a: string, b: string)
    ensures var d, e := digest(a), digest(b);
            ShortImageHash(digest, a) == ShortImageHash(digest, b) <==>
              d[0] == e[0] && d[1] == e[1] && d[2] == e[2] && d[3] / 16 == e[3] / 16
  {
    HexSplit(digest, a);
    HexSplit(digest, b);
    HexByteDecides(digest(a)[0], digest(b)[0]);
    HexByteDecides(digest(a)[1], digest(b)[1]);
    HexByteDecides(digest(a)[2], digest(b)[2]);
    HexByteDecides(digest(a)[3], digest(b)[3]);
  }

  // ---------------------------------------------------------------------------------------------
  // Names.
  // ---------------------------------------------------------------------------------------------

  /** The CR's share of a Job name: sanitised, cut to 48 characters, trailing hyphens dropped. */
  function Prefix(crName: string): string {
    var sanitized := Sanitized(crName);
    TrimHyphensEnd(if |sanitized| > MAX_PREFIX then sanitized[..MAX_PREFIX] else sanitized)
  }

  function JobNameOf(crName: string, shortHash: string): string {
    "nsscan-" + Prefix(crName) + "-" + shortHash
  }

  /** A label as in section 2.1 of RFC 1123, in lower case and starting with a letter as in
      section 2.3.1 of RFC 1035: at most 63 letters, digits and hyphens, no hyphen at either end. */
  predicate IsLabel(s: string) {
    && 1 <= |s| <= 63
    && 'a' <= s[0] <= 'z' && IsLowerAlnum(s[|s| - 1])
    && forall c | c in s :: IsLowerAlnum(c) || c == '-'
  }

  lemma {:induction false} TrimHyphensEndShape(s: string)
    ensures TrimHyphensEnd(s) <= s
    ensures forall c | c in TrimHyphensEnd(s) :: c in s
    ensures var t := TrimHyphensEnd(s); t == [] || t[|t| - 1] != '-'
  {
    if s != [] && s[|s| - 1] == '-' {
      TrimHyphensEndShape(s[..|s| - 1]);
    }
  }

  lemma PrefixShape(crName: string)
    ensures var p := Prefix(crName);
            && |p| <= MAX_PREFIX && (forall c | c in p :: IsLowerAlnum(c) || c == '-')
            && (p != [] ==> p[0] != '-' && p[|p| - 1] != '-')
  {
    WordsAreWords(crName);
    var sanitized := Sanitized(crName);
    if Words(crName) != [] {
      JoinShape(Words(crName));
    }
    TrimHyphensEndShape(if |sanitized| > MAX_PREFIX then sanitized[..MAX_PREFIX] else sanitized);
  }

  lemma JobNameIsLabel(crName: string, shortHash: string)
    requires IsShortHash(shortHash)
    ensures IsLabel(JobNameOf(crName, shortHash))
  {
    PrefixShape(crName);
    var name := JobNameOf(crName, shortHash);
    assert name[|name| - 1] == shortHash[HASH_LENGTH - 1];
    assert shortHash[HASH_LENGTH - 1] in shortHash;
    forall c | c in name ensures IsLowerAlnum(c) || c == '-' {
      assert c in "nsscan-" || c in Prefix(crName) || c == '-' || c in shortHash;
    }
  }

  /** A CR name keeps all of its sanitised form up to 48 characters; beyond that, the first 48 of them
      without the hyphen the cut may leave at the end. */
  lemma JobNameExactly(crName: string, shortHash: string)
    ensures var full := Sanitized(crName);
            && (|full| <= 48 ==> JobNameOf(crName, shortHash) == "nsscan-" + full + "-" + shortHash)
            && (|full| > 48 ==>
                  JobNameOf(crName, shortHash)
                    == "nsscan-" + (if full[47] == '-' then full[..47] else full[..48]) + "-" + shortHash)
  {
    var full := Sanitized(crName);
    WordsAreWords(crName);
    if |full| > 48 {
      if full[47] == '-' {
        NoDoubleHyphen(Words(crName), 46);
        assert full[..48][..47] == full[..47];
        assert TrimHyphensEnd(full[..48]) == TrimHyphensEnd(full[..47]) == full[..47];
      }
    } else if full != [] {
      JoinShape(Words(crName));
    }
  }

  lemma {:induction false} NoDoubleHyphen(ws: seq<string>, i: nat)
    requires AllWords(ws) && i + 1 < |Join(ws)|
    ensures Join(ws)[i] != '-' || Join(ws)[i + 1] != '-'
  {
    var j := Join(ws);
    if |ws| == 1 {
      assert j[i] in ws[0];
    } else {
      var init, last := ws[..|ws| - 1], ws[|ws| - 1];
      assert j == Join(init) + "-" + last;
      JoinShape(init);
      if i + 1 < |Join(init)| {
        NoDoubleHyphen(init, i);
      } else if i + 1 > |Join(init)| {
        assert j[i + 1] == last[i - |Join(init)|];
        assert j[i + 1] in last;
      }
    }
  }

  /** The hash is the last seven characters of the name. */
  function HashOfName(name: string): string
    requires |name| >= HASH_LENGTH
  {
    name[|name| - HASH_LENGTH..]
  }

  lemma HashRecoverable(crName: string, shortHash: string)
    requires |shortHash| == HASH_LENGTH
    ensures HashOfName(JobNameOf(crName, shortHash)) == shortHash
  {
  }

  /** Two names coincide exactly when the hashes and the CR prefixes do; so for one CR, names are
      injective in the hash, and two CRs can only clash through their sanitised prefixes. */
  lemma NamesCoincide(cr1: string, h1: string, cr2: string, h2: string)
    requires |h1| == |h2| == HASH_LENGTH
    ensures JobNameOf(cr1, h1) == JobNameOf(cr2, h2) <==> h1 == h2 && Prefix(cr1) == Prefix(cr2)
  {
    var n1, n2 := JobNameOf(cr1, h1), JobNameOf(cr2, h2);
    assert HashOfName(n1) == h1 && HashOfName(n2) == h2;
    assert n1[7..|n1| - 8] == Prefix(cr1) && n2[7..|n2| - 8] == Prefix(cr2);
  }

  /** Distinct CR names may share a prefix, so the uniqueness of prefixes is an assumption about
      the cluster and not a fact about the code. */
  lemma PrefixesMayClash()
    ensures "a.b" != "a-b" && Prefix("a.b") == Prefix("a-b")
  {
    assert "a.b"[1] != "a-b"[1];
    WordsAround('.');
    WordsAround('-');
    assert "a.b" == ['a', '.', 'b'] && "a-b" == ['a', '-', 'b'];
    SanitizeCollapses("a.b", "a-b");
  }

  lemma WordsAround(c: char)
    requires !IsAlnum(c)
    ensures Words(['a', c, 'b']) == ["a", "b"]
  {
    WordsAppendWord("", "a");
    assert "" + "a" == "a";
    WordsSkip("a", c);
    WordsAppendWord("a" + [c], "b");
    assert "a" + [c] + "b" == ['a', c, 'b'];
  }

  /** `name` could be the name of one of this CR's Jobs. */
  predicate ClaimsName(crName: string, name: string) {
    var stem := "nsscan-" + Prefix(crName) + "-";
    |name| == |stem| + HASH_LENGTH && name[..|stem|] == stem
  }

  lemma ClaimsOwnNames(crName: string, shortHash: string)
    requires |shortHash| == HASH_LENGTH
    ensures ClaimsName(crName, JobNameOf(crName, shortHash))
  {
    var stem := "nsscan-" + Prefix(crName) + "-";
    assert (stem + shortHash)[..|stem|] == stem;
  }
}
