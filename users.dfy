/**
 * The user document of models/User.js: a trimmed display name, an email that
 * is trimmed, lower-cased and then checked against the schema's regular
 * expression, a password, and the three template-id lists.
 */
module Users {
  import opened Schema

  /** The `templates` sub-document: every template, the favourites, the recents. */
  datatype TemplateLists = TemplateLists(all: seq<Id>, fav: seq<Id>, recents: seq<Id>)

  /** A stored user; `name` and `email` hold the values after their setters ran. */
  datatype User = User(name: string, email: string, password: string, templates: TemplateLists)

  // ---------------------------------------------------------------------
  // The `trim` and `lowercase` setters.
  // ---------------------------------------------------------------------

  /** JavaScript's WhiteSpace and LineTerminator characters, which `trim` removes. */
  predicate IsSpace(c: char)
  {
    c == '\t' || c == '\n' || c == '\U{000B}' || c == '\U{000C}' || c == '\r' ||
    c == ' ' || c == '\U{00A0}' || c == '\U{1680}' || ('\U{2000}' <= c <= '\U{200A}') ||
    c == '\U{2028}' || c == '\U{2029}' || c == '\U{202F}' || c == '\U{205F}' ||
    c == '\U{3000}' || c == '\U{FEFF}'
  }

  /** The end of the run of white space that starts at `i`. */
  function SpaceEnd(s: string, i: nat): (n: nat)
    requires i <= |s|
    ensures i <= n <= |s|
    ensures forall k :: i <= k < n ==> IsSpace(s[k])
    ensures n < |s| ==> !IsSpace(s[n])
    decreases |s| - i
  {
    if i < |s| && IsSpace(s[i]) then SpaceEnd(s, i + 1) else i
  }

  /** The start of the run of white space that ends at `j`, not going below `lo`. */
  function SpaceStart(s: string, lo: nat, j: nat): (n: nat)
    requires lo <= j <= |s|
    ensures lo <= n <= j
    ensures forall k :: n <= k < j ==> IsSpace(s[k])
    ensures lo < n ==> !IsSpace(s[n - 1])
    decreases j
  {
    if lo < j && IsSpace(s[j - 1]) then SpaceStart(s, lo, j - 1) else j
  }

  /** `r` is the slice of `s` from index `i`, with only white space around it. */
  ghost predicate TrimmedAt(s: string, r: string, i: int)
  {
    0 <= i <= |s| - |r| && r == s[i..i + |r|] &&
    (forall k :: 0 <= k < i ==> IsSpace(s[k])) &&
    (forall k :: i + |r| <= k < |s| ==> IsSpace(s[k]))
  }

  /**
   * `String.prototype.trim`: the result is the part of `s` between a run of
   * leading and a run of trailing white space, and neither starts nor ends
   * with white space itself.
   */
  function Trim(s: string): (r: string)
    ensures r == [] || (!IsSpace(r[0]) && !IsSpace(r[|r| - 1]))
    ensures exists i :: TrimmedAt(s, r, i)
  {
    var i := SpaceEnd(s, 0);
    var j := SpaceStart(s, i, |s|);
    assert TrimmedAt(s, s[i..j], i);
    s[i..j]
  }

  /** A trimmed string is left alone by a second trim. */
  lemma TrimIdempotent(s: string)
    ensures Trim(Trim(s)) == Trim(s)
  {
    var r := Trim(s);
    assert SpaceEnd(r, 0) == 0;
    assert SpaceStart(r, 0, |r|) == |r|;
    assert r[0..|r|] == r;
  }

  /** Lower-cases one character (the ASCII letters; see the README). */
  function LowerChar(c: char): char
  {
    if 'A' <= c <= 'Z' then (c as int + 32) as char else c
  }

  /** `String.prototype.toLowerCase`, character by character. */
  function Lower(s: string): (r: string)
    ensures |r| == |s|
    ensures forall i :: 0 <= i < |r| ==> !('A' <= r[i] <= 'Z')
    ensures forall i :: 0 <= i < |s| && 'A' <= s[i] <= 'Z' ==> r[i] as int == s[i] as int + 32
    ensures forall i :: 0 <= i < |s| && !('A' <= s[i] <= 'Z') ==> r[i] == s[i]
  {
    seq(|s|, i requires 0 <= i < |s| => LowerChar(s[i]))
  }

  /** The email the schema stores and validates: trimmed, then lower-cased. */
  function NormaliseEmail(s: string): string
  {
    Lower(Trim(s))
  }

  /** Lower-casing never turns white space into something else, or back. */
  lemma SpaceLower(c: char)
    ensures IsSpace(LowerChar(c)) <==> IsSpace(c)
  {
  }

  lemma {:induction false} SpaceEndLower(s: string, i: nat)
    requires i <= |s|
    ensures SpaceEnd(Lower(s), i) == SpaceEnd(s, i)
    decreases |s| - i
  {
    if i < |s| {
      SpaceLower(s[i]);
      if IsSpace(s[i]) {
        SpaceEndLower(s, i + 1);
      }
    }
  }

  lemma {:induction false} SpaceStartLower(s: string, lo: nat, j: nat)
    requires lo <= j <= |s|
    ensures SpaceStart(Lower(s), lo, j) == SpaceStart(s, lo, j)
    decreases j
  {
    if lo < j {
      SpaceLower(s[j - 1]);
      if IsSpace(s[j - 1]) {
        SpaceStartLower(s, lo, j - 1);
      }
    }
  }

  /**
   * Trimming and lower-casing commute, so the order in which the two setters
   * run does not change the stored email.
   */
  lemma TrimLowerCommute(s: string)
    ensures Trim(Lower(s)) == Lower(Trim(s))
  {
    var i := SpaceEnd(s, 0);
    SpaceEndLower(s, 0);
    var j := SpaceStart(s, i, |s|);
    SpaceStartLower(s, i, |s|);
    LowerSlice(s, i, j);
  }

  /** Lower-casing works character by character, so it commutes with slicing. */
  lemma LowerSlice(s: string, i: nat, j: nat)
    requires i <= j <= |s|
    ensures Lower(s)[i..j] == Lower(s[i..j])
  {
    forall k | 0 <= k < j - i
      ensures Lower(s)[i..j][k] == Lower(s[i..j])[k]
    {
    }
  }

  lemma LowerIdempotent(s: string)
    ensures Lower(Lower(s)) == Lower(s)
  {
    forall i | 0 <= i < |s|
      ensures Lower(Lower(s))[i] == Lower(s)[i]
    {
    }
  }

  /** Normalising an already stored email changes nothing. */
  lemma NormaliseIdempotent(s: string)
    ensures NormaliseEmail(NormaliseEmail(s)) == NormaliseEmail(s)
  {
    var t := Trim(s);
    TrimLowerCommute(t);
    assert Trim(Lower(t)) == Lower(Trim(t));
    TrimIdempotent(s);
    assert Trim(t) == t;
    LowerIdempotent(t);
  }

  // ---------------------------------------------------------------------
  // The email regular expression ^\w+([\.-]?\w+)*@\w+([\.-]?\w+)*(\.\w{2,3})+$
  // ---------------------------------------------------------------------

  /** `\w`: an ASCII letter, digit or underscore. */
  predicate IsWordChar(c: char)
  {
    ('a' <= c <= 'z') || ('A' <= c <= 'Z') || ('0' <= c <= '9') || c == '_'
  }

  /** `[\.-]`. */
  predicate IsSep(c: char)
  {
    c == '.' || c == '-'
  }

  /** `\w+`. */
  ghost predicate WordRun(s: string)
  {
    |s| > 0 && forall i :: 0 <= i < |s| ==> IsWordChar(s[i])
  }

  /** `[\.-]?\w+`. */
  ghost predicate Chunk(s: string)
  {
    WordRun(s) || (|s| > 0 && IsSep(s[0]) && WordRun(s[1..]))
  }

  /** `([\.-]?\w+)*`. */
  ghost predicate Chunks(s: string)
    decreases |s|
  {
    s == [] || exists k :: 0 < k <= |s| && Chunk(s[..k]) && Chunks(s[k..])
  }

  /** `\w+([\.-]?\w+)*`, the shape of the local part and of the domain's stem. */
  ghost predicate WordsRegex(s: string)
  {
    exists k :: 0 < k <= |s| && WordRun(s[..k]) && Chunks(s[k..])
  }

  /** `\.\w{2,3}`. */
  ghost predicate TldRegex(s: string)
  {
    (|s| == 3 || |s| == 4) && s[0] == '.' && WordRun(s[1..])
  }

  /** `(\.\w{2,3})+`. */
  ghost predicate TldsRegex(s: string)
    decreases |s|
  {
    exists k :: 0 < k <= |s| && TldRegex(s[..k]) && (k == |s| || TldsRegex(s[k..]))
  }

  /** `\w+([\.-]?\w+)*(\.\w{2,3})+`. */
  ghost predicate DomainRegex(d: string)
  {
    exists j :: 0 <= j <= |d| && WordsRegex(d[..j]) && TldsRegex(d[j..])
  }

  /** The whole regular expression, anchored at both ends. */
  ghost predicate EmailRegex(s: string)
  {
    exists i :: 0 <= i < |s| && s[i] == '@' && WordsRegex(s[..i]) && DomainRegex(s[i + 1..])
  }

  // ---------------------------------------------------------------------
  // The recogniser.
  // ---------------------------------------------------------------------

  /** Every character is `\w`, `.` or `-`. */
  predicate WordOrSep(s: string)
  {
    forall i :: 0 <= i < |s| ==> IsWordChar(s[i]) || IsSep(s[i])
  }

  /** No two separators stand side by side. */
  predicate NoAdjacentSeps(s: string)
  {
    forall i :: 0 <= i < |s| - 1 ==> !(IsSep(s[i]) && IsSep(s[i + 1]))
  }

  /** Word characters with single `.` or `-` between them, starting and ending with a word character. */
  predicate DottedWord(s: string)
  {
    |s| > 0 && IsWordChar(s[0]) && IsWordChar(s[|s| - 1]) && WordOrSep(s) && NoAdjacentSeps(s)
  }

  /** The first index of `c` in `s`, or -1. */
  function IndexOf(s: string, c: char): (r: int)
    ensures -1 <= r < |s|
    ensures r >= 0 ==> s[r] == c
    ensures forall k :: 0 <= k < |s| && (r < 0 || k < r) ==> s[k] != c
  {
    if s == [] then -1
    else if s[0] == c then 0
    else
      var r := IndexOf(s[1..], c);
      if r < 0 then -1 else r + 1
  }

  /** The last index of `c` in `s`, or -1. */
  function LastIndexOf(s: string, c: char): (r: int)
    ensures -1 <= r < |s|
    ensures r >= 0 ==> s[r] == c
    ensures forall k :: r < k < |s| ==> s[k] != c
  {
    if s == [] then -1
    else if s[|s| - 1] == c then |s| - 1
    else LastIndexOf(s[..|s| - 1], c)
  }

  /** The domain: a dotted word, a final `.`, then two or three word characters. */
  predicate ValidDomain(d: string)
  {
    var j := LastIndexOf(d, '.');
    j >= 0 && DottedWord(d[..j]) && 2 <= |d| - j - 1 <= 3 &&
    forall k :: j < k < |d| ==> IsWordChar(d[k])
  }

  /** The schema's email validator: a dotted-word local part, `@`, a valid domain. */
  predicate ValidEmail(s: string)
  {
    var i := IndexOf(s, '@');
    i >= 0 && DottedWord(s[..i]) && ValidDomain(s[i + 1..])
  }

  // ---------------------------------------------------------------------
  // The recogniser accepts exactly the strings the regular expression matches.
  // ---------------------------------------------------------------------

  /** What `([\.-]?\w+)*` matches: empty, or ending in a word character with no two separators adjacent. */
  predicate ChunksShape(s: string)
  {
    s == [] || (IsWordChar(s[|s| - 1]) && WordOrSep(s) && NoAdjacentSeps(s))
  }

  lemma ChunksShapeSuffix(s: string, k: int)
    requires ChunksShape(s) && 0 <= k <= |s|
    ensures ChunksShape(s[k..])
  {
    if k < |s| {
      var t := s[k..];
      assert forall i :: 0 <= i < |t| ==> t[i] == s[k + i];
    }
  }

  /** A word-shaped prefix ending in a word character keeps the chunk shape. */
  lemma ShapeConcat(c: string, t: string)
    requires |c| > 0 && IsWordChar(c[|c| - 1]) && WordOrSep(c) && NoAdjacentSeps(c)
    requires ChunksShape(t)
    ensures ChunksShape(c + t)
  {
    var s := c + t;
    forall i | 0 <= i < |s|
      ensures IsWordChar(s[i]) || IsSep(s[i])
    {
      if i < |c| { assert s[i] == c[i]; } else { assert s[i] == t[i - |c|]; }
    }
    forall i | 0 <= i < |s| - 1
      ensures !(IsSep(s[i]) && IsSep(s[i + 1]))
    {
      if i < |c| - 1 {
        assert s[i] == c[i] && s[i + 1] == c[i + 1];
      } else if i == |c| - 1 {
        assert s[i] == c[|c| - 1];
      } else {
        assert s[i] == t[i - |c|] && s[i + 1] == t[i - |c| + 1];
      }
    }
    if t == [] {
      assert s == c;
    } else {
      assert s[|s| - 1] == t[|t| - 1];
    }
  }

  /** One `[\.-]?\w+` ends in a word character and has no adjacent separators. */
  lemma ChunkShape(c: string)
    requires Chunk(c)
    ensures |c| > 0 && IsWordChar(c[|c| - 1]) && WordOrSep(c) && NoAdjacentSeps(c)
  {
    if !WordRun(c) {
      assert forall i :: 0 < i < |c| ==> c[i] == c[1..][i - 1];
    }
  }

  lemma {:induction false} ChunksToShape(s: string)
    requires Chunks(s)
    ensures ChunksShape(s)
    decreases |s|
  {
    if s != [] {
      var k :| 0 < k <= |s| && Chunk(s[..k]) && Chunks(s[k..]);
      ChunksToShape(s[k..]);
      ChunkShape(s[..k]);
      ShapeConcat(s[..k], s[k..]);
      assert s == s[..k] + s[k..];
    }
  }

  lemma {:induction false} ShapeToChunks(s: string)
    requires ChunksShape(s)
    ensures Chunks(s)
    decreases |s|
  {
    if s != [] {
      var k := if IsWordChar(s[0]) then 1 else 2;
      if k == 2 {
        assert |s| >= 2;
        assert IsWordChar(s[1]);
        assert s[..2][1..] == [s[1]];
      } else {
        assert s[..1] == [s[0]];
      }
      assert Chunk(s[..k]);
      ChunksShapeSuffix(s, k);
      ShapeToChunks(s[k..]);
    }
  }

  /** `\w+([\.-]?\w+)*` matches exactly the dotted words. */
  lemma WordsRegexIsDotted(s: string)
    ensures WordsRegex(s) <==> DottedWord(s)
  {
    if WordsRegex(s) {
      var k :| 0 < k <= |s| && WordRun(s[..k]) && Chunks(s[k..]);
      ChunksToShape(s[k..]);
      var w, t := s[..k], s[k..];
      assert s == w + t;
      assert forall i :: 0 <= i < k ==> s[i] == w[i];
      assert forall i :: k <= i < |s| ==> s[i] == t[i - k];
    }
    if DottedWord(s) {
      assert s[..1] == [s[0]];
      assert ChunksShape(s[1..]) by { ChunksShapeSuffix(s, 1); }
      ShapeToChunks(s[1..]);
      assert WordRun(s[..1]) && Chunks(s[1..]);
    }
  }

  /** Splitting `q` at `k` and again `m` further on, written with slices. */
  lemma SplitTwice(q: string, k: int, m: int)
    requires 0 <= k && 0 <= m && k + m <= |q|
    ensures q[k + m..] == q[k..][m..]
    ensures q[..k + m][..k] == q[..k]
    ensures q[..k + m][k..] == q[k..][..m]
  {
  }

  /** Regrouping a concatenation around a split of its second half. */
  lemma Regroup(p: string, q: string, k: int)
    requires 0 <= k <= |q|
    ensures p + q == (p + q[..k]) + q[k..]
  {
    assert q == q[..k] + q[k..];
  }

  /** Appending one `\.\w{2,3}` to a dotted word gives a dotted word. */
  lemma DottedAppendTld(p: string, t: string)
    requires DottedWord(p) && TldRegex(t)
    ensures DottedWord(p + t)
  {
    var s := p + t;
    assert forall i :: |p| <= i < |s| ==> s[i] == t[i - |p|];
    assert forall i :: 0 <= i < |t| - 1 ==> t[i + 1] == t[1..][i];
  }

  /** Appending any number of `\.\w{2,3}` groups to a dotted word gives a dotted word. */
  lemma {:induction false} DottedAppendTlds(p: string, q: string)
    requires DottedWord(p) && TldsRegex(q)
    ensures DottedWord(p + q)
    decreases |q|
  {
    var k :| 0 < k <= |q| && TldRegex(q[..k]) && (k == |q| || TldsRegex(q[k..]));
    DottedAppendTld(p, q[..k]);
    if k < |q| {
      DottedAppendTlds(p + q[..k], q[k..]);
      Regroup(p, q, k);
    } else {
      assert q[..k] == q;
    }
  }

  /** `(\.\w{2,3})+` is one final group, preceded by nothing or by more groups. */
  lemma {:induction false} TldsLast(q: string) returns (m: int)
    requires TldsRegex(q)
    ensures 0 <= m < |q| && TldRegex(q[m..]) && (m == 0 || TldsRegex(q[..m]))
    decreases |q|
  {
    var k :| 0 < k <= |q| && TldRegex(q[..k]) && (k == |q| || TldsRegex(q[k..]));
    if k == |q| {
      m := 0;
      assert q[..k] == q[0..];
    } else {
      var m' := TldsLast(q[k..]);
      m := k + m';
      SplitTwice(q, k, m');
      var head := q[..m];
      if m' == 0 {
        assert head == q[..k];
        assert TldsRegex(head) by {
          assert TldRegex(head[..|head|]);
        }
      } else {
        assert TldsRegex(head) by {
          assert 0 < k <= |head| && TldRegex(head[..k]) && TldsRegex(head[k..]);
        }
      }
    }
  }

  /** The first `c` in `s` is at `x` when `s[x] == c` and no earlier character is `c`. */
  lemma IndexOfAt(s: string, c: char, x: int)
    requires 0 <= x < |s| && s[x] == c
    requires forall k :: 0 <= k < x ==> s[k] != c
    ensures IndexOf(s, c) == x
  {
  }

  /** The last `c` in `s` is at `x` when `s[x] == c` and no later character is `c`. */
  lemma LastIndexOfAt(s: string, c: char, x: int)
    requires 0 <= x < |s| && s[x] == c
    requires forall k :: x < k < |s| ==> s[k] != c
    ensures LastIndexOf(s, c) == x
  {
  }

  /** The stem before the last group of the domain is a dotted word. */
  lemma StemDotted(d: string, j: int, m: int)
    requires 0 <= j && 0 <= m && j + m <= |d|
    requires WordsRegex(d[..j]) && (m == 0 || TldsRegex(d[j..][..m]))
    ensures DottedWord(d[..j + m])
  {
    WordsRegexIsDotted(d[..j]);
    if m == 0 {
      assert d[..j + m] == d[..j];
    } else {
      assert d[..j + m] == d[..j] + d[j..][..m];
      DottedAppendTlds(d[..j], d[j..][..m]);
    }
  }

  /** The last group `\.\w{2,3}` starting at `x`, read off `d`. */
  lemma LastGroup(d: string, x: int)
    requires 0 <= x < |d| && TldRegex(d[x..])
    ensures d[x] == '.' && 2 <= |d| - x - 1 <= 3
    ensures forall k :: x < k < |d| ==> IsWordChar(d[k])
  {
    var last := d[x..];
    forall k | x < k < |d|
      ensures IsWordChar(d[k])
    {
      assert d[k] == last[1..][k - x - 1];
    }
  }

  /** A matching domain splits into a dotted-word stem and one last group `\.\w{2,3}`. */
  lemma DomainSplit(d: string) returns (x: int)
    requires DomainRegex(d)
    ensures 0 <= x < |d| && DottedWord(d[..x]) && TldRegex(d[x..])
  {
    var j :| 0 <= j <= |d| && WordsRegex(d[..j]) && TldsRegex(d[j..]);
    var m := TldsLast(d[j..]);
    SplitTwice(d, j, m);
    StemDotted(d, j, m);
    x := j + m;
  }

  lemma DomainRegexToValid(d: string)
    requires DomainRegex(d)
    ensures ValidDomain(d)
  {
    var x := DomainSplit(d);
    LastGroup(d, x);
    LastIndexOfAt(d, '.', x);
  }

  lemma ValidToDomainRegex(d: string)
    requires ValidDomain(d)
    ensures DomainRegex(d)
  {
    var j := LastIndexOf(d, '.');
    WordsRegexIsDotted(d[..j]);
    var q := d[j..];
    forall k | 0 <= k < |q[1..]|
      ensures IsWordChar(q[1..][k])
    {
      assert q[1..][k] == d[j + 1 + k];
    }
    assert TldRegex(q);
    assert q[..|q|] == q;
    assert TldsRegex(q);
    assert 0 <= j <= |d| && WordsRegex(d[..j]) && TldsRegex(d[j..]);
  }

  /** The domain part of the regular expression and the recogniser agree. */
  lemma DomainRegexIsValid(d: string)
    ensures DomainRegex(d) <==> ValidDomain(d)
  {
    if DomainRegex(d) { DomainRegexToValid(d); }
    if ValidDomain(d) { ValidToDomainRegex(d); }
  }

  lemma EmailRegexToValid(s: string)
    requires EmailRegex(s)
    ensures ValidEmail(s)
  {
    var i :| 0 <= i < |s| && s[i] == '@' && WordsRegex(s[..i]) && DomainRegex(s[i + 1..]);
    WordsRegexIsDotted(s[..i]);
    var local := s[..i];
    assert DottedWord(local);
    forall k | 0 <= k < i
      ensures s[k] != '@'
    {
      assert s[k] == local[k];
      assert IsWordChar(local[k]) || IsSep(local[k]);
    }
    IndexOfAt(s, '@', i);
    DomainRegexToValid(s[i + 1..]);
  }

  /**
   * The recogniser accepts exactly the strings the schema's regular
   * expression matches.
   */
  lemma EmailRegexIsValid(s: string)
    ensures EmailRegex(s) <==> ValidEmail(s)
  {
    if EmailRegex(s) {
      EmailRegexToValid(s);
    }
    if ValidEmail(s) {
      var i := IndexOf(s, '@');
      WordsRegexIsDotted(s[..i]);
      DomainRegexIsValid(s[i + 1..]);
      assert 0 <= i < |s| && s[i] == '@' && WordsRegex(s[..i]) && DomainRegex(s[i + 1..]);
    }
  }

  /** A multi-part top-level domain is accepted: the last group is the TLD, the rest joins the domain words. */
  lemma EmailAcceptsMultiPartTld()
    ensures ValidEmail("a@b.co.uk")
  {
    assert IndexOf("a@b.co.uk", '@') == 1;
    assert "a@b.co.uk"[..1] == "a" && "a@b.co.uk"[2..] == "b.co.uk";
    assert DottedWord("a");
    assert LastIndexOf("b.co.uk", '.') == 4;
    assert "b.co.uk"[..4] == "b.co";
    assert DottedWord("b.co") by { assert WordOrSep("b.co") && NoAdjacentSeps("b.co"); }
    assert ValidDomain("b.co.uk");
  }

  /** A four-letter top-level domain is rejected. */
  lemma EmailRejectsLongTld()
    ensures !ValidEmail("a@b.info")
  {
    assert IndexOf("a@b.info", '@') == 1;
    LastIndexOfAt("b.info", '.', 1);
  }

  /** A one-letter top-level domain is rejected. */
  lemma EmailRejectsShortTld()
    ensures !ValidEmail("a@b.c")
  {
    assert IndexOf("a@b.c", '@') == 1;
    assert LastIndexOf("b.c", '.') == 1;
  }

  // ---------------------------------------------------------------------
  // User validation.
  // ---------------------------------------------------------------------

  /** The paths of a user document that can fail validation. */
  datatype UserField = NameField | EmailField | PasswordField

  /** A user's fields as validation leaves them: a trimmed non-empty name, a valid email, a password. */
  predicate StoredFields(name: string, email: string, password: string)
  {
    name != [] && Trim(name) == name && ValidEmail(email) && password != []
  }

  /** A stored user passed validation. */
  predicate StoredUser(u: User)
  {
    StoredFields(u.name, u.email, u.password)
  }

  /** The outcome of building a user document: the document, or the paths that failed validation. */
  datatype NewUserResult = Accepted(user: User) | Rejected(errors: set<UserField>)

  /** The paths whose check failed; validation reports every failing path, not just the first. */
  function Failures(nameOk: bool, emailOk: bool, passwordOk: bool): (r: set<UserField>)
    ensures NameField in r <==> !nameOk
    ensures EmailField in r <==> !emailOk
    ensures PasswordField in r <==> !passwordOk
    ensures r == {} <==> nameOk && emailOk && passwordOk
  {
    (if nameOk then {} else {NameField}) +
    (if emailOk then {} else {EmailField}) +
    (if passwordOk then {} else {PasswordField})
  }

  /**
   * Builds and validates a new user document. The setters run first: `name`
   * is trimmed, `email` is trimmed and lower-cased. Then `name` is required
   * (an all-blank name fails), `email` must pass the validator (an empty one
   * fails it as it fails `required`), and `password` is required. A new user
   * starts with three empty template lists.
   */
  function NewUser(name: string, email: string, password: string): (r: NewUserResult)
    ensures r.Accepted? <==> Trim(name) != [] && ValidEmail(NormaliseEmail(email)) && password != []
    ensures r.Accepted? ==> r.user == User(Trim(name), NormaliseEmail(email), password, TemplateLists([], [], []))
    ensures r.Rejected? ==> r.errors != {}
    ensures r.Rejected? ==> (NameField in r.errors <==> Trim(name) == [])
    ensures r.Rejected? ==> (EmailField in r.errors <==> !ValidEmail(NormaliseEmail(email)))
    ensures r.Rejected? ==> (PasswordField in r.errors <==> password == [])
  {
    var n, e := Trim(name), NormaliseEmail(email);
    var nameOk, emailOk, passwordOk := n != [], ValidEmail(e), password != [];
    if nameOk && emailOk && passwordOk then
      Accepted(User(n, e, password, TemplateLists([], [], [])))
    else
      Rejected(Failures(nameOk, emailOk, passwordOk))
  }

  /** An accepted user's fields are stored as validation leaves them: setters applied once are applied for good. */
  lemma NewUserIsStored(name: string, email: string, password: string)
    requires NewUser(name, email, password).Accepted?
    ensures StoredUser(NewUser(name, email, password).user)
  {
    TrimIdempotent(name);
  }

  /** A user is accepted exactly when the name is not blank, the password is given and the normalised email matches the regular expression. */
  lemma NewUserMatchesRegex(name: string, email: string, password: string)
    ensures NewUser(name, email, password).Accepted? <==>
            Trim(name) != [] && EmailRegex(NormaliseEmail(email)) && password != []
  {
    EmailRegexIsValid(NormaliseEmail(email));
  }
}
