/** The `java.lang.String` operations the core relies on, with ASCII
    semantics: `toLowerCase`, `trim`, `contains`, `split`, `lastIndexOf`,
    `isEmpty`, the bean-validation notion of a blank string, and the SQL
    `LIKE` operator the repository queries use. */
module Text {

  predicate IsUpper(c: char) { 'A' <= c <= 'Z' }

  /** `trim` removes every character whose code is at most U+0020. */
  predicate IsTrimmable(c: char) { c <= ' ' }

  /** `Character.isWhitespace` on the ASCII range (what `@NotBlank` skips). */
  predicate IsWhitespace(c: char) {
    c == ' ' || '\t' <= c <= '\r' || '\U{1C}' <= c <= '\U{1F}'
  }

  function LowerChar(c: char): (r: char)
    ensures !IsUpper(r)
    ensures !IsUpper(c) ==> r == c
    ensures IsTrimmable(r) <==> IsTrimmable(c)
  {
    if IsUpper(c) then (c as int + 32) as char else c
  }

  /** `String.toLowerCase()`: every upper-case letter is replaced, nothing else moves. */
  function Lower(s: string): (r: string)
    ensures |r| == |s|
    ensures forall i :: 0 <= i < |r| ==> !IsUpper(r[i])
    ensures forall i :: 0 <= i < |s| && !IsUpper(s[i]) ==> r[i] == s[i]
    ensures forall i :: 0 <= i < |s| ==> r[i] == LowerChar(s[i])
  {
    seq(|s|, i requires 0 <= i < |s| => LowerChar(s[i]))
  }

  /** Number of trimmable characters at the front of `s`. */
  function LeadingTrimmable(s: string): (n: nat)
    ensures n <= |s|
    ensures forall i :: 0 <= i < n ==> IsTrimmable(s[i])
    ensures n < |s| ==> !IsTrimmable(s[n])
  {
    if |s| == 0 || !IsTrimmable(s[0]) then 0 else 1 + LeadingTrimmable(s[1..])
  }

  /** Number of trimmable characters at the back of `s`. */
  function TrailingTrimmable(s: string): (n: nat)
    ensures n <= |s|
    ensures forall i :: |s| - n <= i < |s| ==> IsTrimmable(s[i])
    ensures n < |s| ==> !IsTrimmable(s[|s| - 1 - n])
  {
    if |s| == 0 || !IsTrimmable(s[|s| - 1]) then 0 else 1 + TrailingTrimmable(s[..|s| - 1])
  }

  /** True when `s` neither starts nor ends with a trimmable character. */
  predicate IsTrimmed(s: string) {
    s == [] || (!IsTrimmable(s[0]) && !IsTrimmable(s[|s| - 1]))
  }

  /** `String.trim()`: the slice of `s` left after dropping trimmable characters at both ends. */
  function Trim(s: string): (r: string)
    ensures IsTrimmed(r)
    ensures LeadingTrimmable(s) + |r| <= |s|
    ensures r == s[LeadingTrimmable(s)..LeadingTrimmable(s) + |r|]
    ensures forall i :: LeadingTrimmable(s) + |r| <= i < |s| ==> IsTrimmable(s[i])
  {
    var a := LeadingTrimmable(s);
    var rest := s[a..];
    rest[..|rest| - TrailingTrimmable(rest)]
  }

  /** `String.isBlank()` in the sense of `@NotBlank`: no character that is not white space. */
  predicate IsBlank(s: string) {
    forall i :: 0 <= i < |s| ==> IsWhitespace(s[i])
  }

  /** `needle` occurs somewhere in `haystack` (`String.contains`). */
  predicate Contains(haystack: string, needle: string) {
    exists i | 0 <= i <= |haystack| - |needle| :: OccursAt(haystack, needle, i)
  }

  /** `needle` occurs in `haystack` starting at index `i`. */
  predicate OccursAt(haystack: string, needle: string, i: int) {
    0 <= i && i + |needle| <= |haystack| && haystack[i..i + |needle|] == needle
  }

  /** `needle` occurs in `haystack` when both are lower-cased. */
  predicate ContainsIgnoreCase(haystack: string, needle: string) {
    Contains(Lower(haystack), Lower(needle))
  }

  /** Index of the last occurrence of `c` in `s`, or -1: `String.lastIndexOf(char)`. */
  function LastIndexOf(s: string, c: char): (i: int)
    ensures -1 <= i < |s|
    ensures i >= 0 ==> s[i] == c
    ensures forall j :: i < j < |s| ==> s[j] != c
  {
    if |s| == 0 then -1
    else if s[|s| - 1] == c then |s| - 1
    else LastIndexOf(s[..|s| - 1], c)
  }

  /** The pieces of `s` between occurrences of `sep`, empty pieces included (the raw
      pieces that `String.split` starts from). */
  function Split(s: string, sep: char): (pieces: seq<string>)
    ensures |pieces| >= 1
    ensures forall k :: 0 <= k < |pieces| ==> sep !in pieces[k]
    decreases |s|
  {
    var i := IndexOf(s, sep);
    if i < 0 then [s]
    else
      var head := s[..i];
      assert forall j :: 0 <= j < |head| ==> head[j] == s[j];
      [head] + Split(s[i + 1..], sep)
  }

  /** Index of the first occurrence of `c` in `s`, or -1. */
  function IndexOf(s: string, c: char): (i: int)
    ensures -1 <= i < |s|
    ensures i >= 0 ==> s[i] == c
    ensures forall j :: 0 <= j < |s| && (i < 0 || j < i) ==> s[j] != c
  {
    if |s| == 0 then -1
    else if s[0] == c then 0
    else var k := IndexOf(s[1..], c); if k < 0 then -1 else k + 1
  }

  /** The pieces glued back with `sep` between them. */
  function Join(pieces: seq<string>, sep: char): string
    requires |pieces| >= 1
  {
    if |pieces| == 1 then pieces[0] else pieces[0] + [sep] + Join(pieces[1..], sep)
  }

  /** Splitting loses nothing: joining the pieces with the separator gives back the input. */
  lemma {:induction false} SplitJoin(s: string, sep: char)
    ensures Join(Split(s, sep), sep) == s
    decreases |s|
  {
    var i := IndexOf(s, sep);
    if i >= 0 {
      var head, tail := s[..i], s[i + 1..];
      SplitJoin(tail, sep);
      JoinCons(head, Split(tail, sep), sep);
      assert s == head + [sep] + tail;
    }
  }

  /** Joining a piece in front of others puts the separator between them. */
  lemma JoinCons(head: string, rest: seq<string>, sep: char)
    requires |rest| >= 1
    ensures Join([head] + rest, sep) == head + [sep] + Join(rest, sep)
  {
    assert ([head] + rest)[1..] == rest;
  }

  /** Splitting loses no structure: pieces without the separator, joined with it, split
      back into the same pieces. */
  lemma {:induction false} SplitJoined(pieces: seq<string>, sep: char)
    requires |pieces| >= 1
    requires forall k :: 0 <= k < |pieces| ==> sep !in pieces[k]
    ensures Split(Join(pieces, sep), sep) == pieces
    decreases |pieces|
  {
    var first := pieces[0];
    if |pieces| == 1 {
      assert IndexOf(first, sep) < 0;
    } else {
      var s := Join(pieces, sep);
      var rest := Join(pieces[1..], sep);
      assert s == first + [sep] + rest;
      assert s[|first|] == sep;
      assert forall j :: 0 <= j < |first| ==> s[j] == first[j];
      assert IndexOf(s, sep) == |first|;
      assert s[..|first|] == first;
      assert s[|first| + 1..] == rest;
      SplitJoined(pieces[1..], sep);
      assert [first] + pieces[1..] == pieces;
    }
  }

  /** The pieces with the empty ones at the end removed. */
  function DropTrailingEmpty(pieces: seq<string>): (r: seq<string>)
    ensures |r| <= |pieces| && r == pieces[..|r|]
    ensures forall k :: |r| <= k < |pieces| ==> pieces[k] == []
    ensures r != [] ==> r[|r| - 1] != []
  {
    if pieces == [] || pieces[|pieces| - 1] != [] then pieces
    else DropTrailingEmpty(pieces[..|pieces| - 1])
  }

  /** `String.split` on a one-character separator: the whole string when the separator
      does not occur, otherwise the pieces between separators with the trailing empty
      ones removed (so `"a,"` gives `["a"]` and `","` gives no piece at all). */
  function StringSplit(s: string, sep: char): (pieces: seq<string>)
    ensures sep !in s ==> pieces == [s]
    ensures |pieces| <= |Split(s, sep)| && pieces == Split(s, sep)[..|pieces|]
    ensures forall k :: |pieces| <= k < |Split(s, sep)| ==> Split(s, sep)[k] == []
    ensures sep in s ==> pieces == [] || pieces[|pieces| - 1] != []
    ensures forall k :: 0 <= k < |pieces| ==> sep !in pieces[k]
  {
    if sep !in s then
      assert IndexOf(s, sep) < 0;
      [s]
    else DropTrailingEmpty(Split(s, sep))
  }

  /** Pieces without the separator, the last of them non-empty unless it is the only
      one, split back into themselves once joined. */
  lemma StringSplitJoined(pieces: seq<string>, sep: char)
    requires |pieces| >= 1
    requires forall k :: 0 <= k < |pieces| ==> sep !in pieces[k]
    requires |pieces| == 1 || pieces[|pieces| - 1] != []
    ensures StringSplit(Join(pieces, sep), sep) == pieces
  {
    SplitJoined(pieces, sep);
    if |pieces| > 1 {
      var s := Join(pieces, sep);
      assert s == pieces[0] + [sep] + Join(pieces[1..], sep);
      assert s[|pieces[0]|] == sep;
    }
  }

  /** The SQL `LIKE` operator without an escape character: in `pattern`, `%` matches
      any run of characters, `_` any one character, and every other character itself. */
  predicate Like(s: string, pattern: string)
    decreases |s| + |pattern|
  {
    if pattern == [] then s == []
    else if pattern[0] == '%' then Like(s, pattern[1..]) || (s != [] && Like(s[1..], pattern))
    else s != [] && (pattern[0] == '_' || pattern[0] == s[0]) && Like(s[1..], pattern[1..])
  }

  /** `s` holds one of the two `LIKE` wildcards. */
  predicate HasWildcard(s: string) {
    '%' in s || '_' in s
  }

  /** `s` matches the pattern of a "containing" query: `needle` between two `%`. */
  predicate LikeContains(s: string, needle: string) {
    Like(s, "%" + needle + "%")
  }

  /** `LOWER(s) LIKE LOWER(CONCAT('%', needle, '%'))`. */
  predicate LikeContainsIgnoreCase(s: string, needle: string) {
    Like(Lower(s), Lower("%" + needle + "%"))
  }

  /** A lone `%` matches every string. */
  lemma {:induction false} LikeAll(s: string)
    ensures Like(s, "%")
    decreases |s|
  {
    if s != [] {
      LikeAll(s[1..]);
    } else {
      assert "%"[1..] == [];
    }
  }

  /** A leading `%` matches exactly when the rest of the pattern matches some suffix. */
  lemma {:induction false} LikePercentPrefix(s: string, rest: string)
    ensures Like(s, "%" + rest) <==> exists i :: 0 <= i <= |s| && Like(s[i..], rest)
    decreases |s|
  {
    var p := "%" + rest;
    assert p[0] == '%' && p[1..] == rest;
    assert s[0..] == s;
    if s != [] {
      LikePercentPrefix(s[1..], rest);
      if exists i :: 0 <= i <= |s| && Like(s[i..], rest) {
        var i :| 0 <= i <= |s| && Like(s[i..], rest);
        if i > 0 {
          assert s[1..][i - 1..] == s[i..];
        }
      }
      if exists j :: 0 <= j <= |s[1..]| && Like(s[1..][j..], rest) {
        var j :| 0 <= j <= |s[1..]| && Like(s[1..][j..], rest);
        assert s[1..][j..] == s[j + 1..];
      }
    }
  }

  /** A wildcard-free pattern followed by `%` matches exactly the strings it begins. */
  lemma {:induction false} LikeLiteralPrefix(s: string, q: string)
    requires !HasWildcard(q)
    ensures Like(s, q + "%") <==> q <= s
    decreases |q|
  {
    if q == [] {
      assert q + "%" == "%";
      LikeAll(s);
    } else {
      var p := q + "%";
      assert p[0] == q[0] && p[1..] == q[1..] + "%";
      assert !HasWildcard(q[1..]) by {
        assert forall c :: c in q[1..] ==> c in q;
      }
      if s != [] {
        LikeLiteralPrefix(s[1..], q[1..]);
        assert q <= s <==> q[0] == s[0] && q[1..] <= s[1..];
      }
    }
  }

  /** Without wildcards in the needle, the "containing" pattern is plain containment. */
  lemma LikeContainsLiteral(s: string, needle: string)
    requires !HasWildcard(needle)
    ensures LikeContains(s, needle) <==> Contains(s, needle)
  {
    assert "%" + needle + "%" == "%" + (needle + "%");
    LikePercentPrefix(s, needle + "%");
    if Contains(s, needle) {
      var i :| 0 <= i <= |s| - |needle| && OccursAt(s, needle, i);
      LikeLiteralPrefix(s[i..], needle);
      assert s[i..][..|needle|] == needle;
    }
    if exists i :: 0 <= i <= |s| && Like(s[i..], needle + "%") {
      var i :| 0 <= i <= |s| && Like(s[i..], needle + "%");
      LikeLiteralPrefix(s[i..], needle);
      assert s[i..i + |needle|] == s[i..][..|needle|];
      assert OccursAt(s, needle, i);
    }
  }

  /** Lower-casing keeps a string free of wildcards, and leaves the `%` around it. */
  lemma LowerWildcards(needle: string)
    ensures Lower("%" + needle + "%") == "%" + Lower(needle) + "%"
    ensures !HasWildcard(needle) ==> !HasWildcard(Lower(needle))
  {
    var l := Lower(needle);
    if !HasWildcard(needle) {
      forall i | 0 <= i < |l| ensures l[i] != '%' && l[i] != '_' {
        assert needle[i] in needle;
      }
    }
  }

  /** Without wildcards in the needle, the case-insensitive "containing" pattern is
      case-insensitive containment. */
  lemma LikeContainsIgnoreCaseLiteral(s: string, needle: string)
    requires !HasWildcard(needle)
    ensures LikeContainsIgnoreCase(s, needle) <==> ContainsIgnoreCase(s, needle)
  {
    LowerWildcards(needle);
    LikeContainsLiteral(Lower(s), Lower(needle));
  }

  /** With a wildcard in the query the two differ: `_` matches any one character. */
  lemma LikeUnderscoreMatchesAny()
    ensures LikeContains("myXfile", "my_file") && !Contains("myXfile", "my_file")
  {
    var s, n := "myXfile", "my_file";
    assert "%" + n + "%" == "%" + (n + "%");
    LikePercentPrefix(s, n + "%");
    assert s[0..] == s;
    LikeAll("");
    assert Like("e", "e%");
    assert Like("le", "le%");
    assert Like("ile", "ile%");
    assert Like("file", "file%");
    assert Like("Xfile", "_file%");
    assert Like("yXfile", "y_file%");
    assert s[1..] == "yXfile" && (n + "%")[1..] == "y_file%";
    assert Like(s, n + "%");
    assert s[0..7][2] != n[2];
  }

  /** Lower-casing neither adds nor removes trimmable characters at the front. */
  lemma {:induction false} LeadingTrimmableLower(s: string)
    ensures LeadingTrimmable(Lower(s)) == LeadingTrimmable(s)
    decreases |s|
  {
    if |s| > 0 && IsTrimmable(s[0]) {
      assert Lower(s)[1..] == Lower(s[1..]);
      LeadingTrimmableLower(s[1..]);
    }
  }

  /** Lower-casing neither adds nor removes trimmable characters at the back. */
  lemma {:induction false} TrailingTrimmableLower(s: string)
    ensures TrailingTrimmable(Lower(s)) == TrailingTrimmable(s)
    decreases |s|
  {
    if |s| > 0 && IsTrimmable(s[|s| - 1]) {
      assert Lower(s)[..|s| - 1] == Lower(s[..|s| - 1]);
      TrailingTrimmableLower(s[..|s| - 1]);
    }
  }

  /** With ASCII case mapping, trimming and lower-casing commute, so
      `trim().toLowerCase()` and `toLowerCase().trim()` agree on every string. */
  lemma TrimLowerCommute(s: string)
    ensures Trim(Lower(s)) == Lower(Trim(s))
  {
    LeadingTrimmableLower(s);
    var a := LeadingTrimmable(s);
    assert Lower(s)[a..] == Lower(s[a..]);
    TrailingTrimmableLower(s[a..]);
  }

  /** Lower-casing twice is lower-casing once. */
  lemma LowerIdempotent(s: string)
    ensures Lower(Lower(s)) == Lower(s)
  {
  }

  /** Trimming a trimmed string changes nothing. */
  lemma TrimIdempotent(s: string)
    requires IsTrimmed(s)
    ensures Trim(s) == s
  {
    assert LeadingTrimmable(s) == 0;
    assert TrailingTrimmable(s) == 0;
  }

  /** A trimmed string that is not empty is not blank. */
  lemma TrimmedNonEmptyIsNotBlank(s: string)
    requires IsTrimmed(s) && s != []
    ensures !IsBlank(s)
  {
    assert !IsWhitespace(s[0]);
  }
}
