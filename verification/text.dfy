/** String operations the handlers and hooks rely on: `toLowerCase` (ASCII
    letters only), `trim` (ECMAScript's white-space and line-terminator set)
    and `split(' ')` (cut at every single space). */
module Text {

  /** ASCII case folding of one character. */
  function LowerChar(c: char): char
  {
    if 'A' <= c <= 'Z' then (c as int + 32) as char else c
  }

  /** `s.toLowerCase()` restricted to ASCII letters. */
  function ToLower(s: string): (r: string)
    ensures |r| == |s|
    ensures forall i :: 0 <= i < |s| ==> r[i] == LowerChar(s[i])
  {
    seq(|s|, i requires 0 <= i < |s| => LowerChar(s[i]))
  }

  /** The characters `String.prototype.trim` removes: ECMAScript's WhiteSpace
      (tab, vertical tab, form feed, space, no-break space, byte-order mark and
      the Zs category) and LineTerminator (LF, CR, LS, PS). */
  predicate IsSpace(c: char)
  {
    || c == '\t' || c == '\n' || c == '\U{000B}' || c == '\U{000C}' || c == '\r'
    || c == ' ' || c == '\U{00A0}' || c == '\U{1680}'
    || ('\U{2000}' <= c <= '\U{200A}')
    || c == '\U{2028}' || c == '\U{2029}' || c == '\U{202F}' || c == '\U{205F}'
    || c == '\U{3000}' || c == '\U{FEFF}'
  }

  ghost predicate AllSpace(s: string)
  {
    forall i :: 0 <= i < |s| ==> IsSpace(s[i])
  }

  /** Neither end of `s` is white space. */
  predicate Trimmed(s: string)
  {
    s == "" || (!IsSpace(s[0]) && !IsSpace(s[|s| - 1]))
  }

  /** Number of leading white-space characters. */
  function LeadingSpace(s: string): (k: nat)
    ensures k <= |s|
    ensures AllSpace(s[..k])
    ensures k == |s| || !IsSpace(s[k])
    decreases |s|
  {
    if |s| == 0 || !IsSpace(s[0]) then 0
    else
      var k := LeadingSpace(s[1..]);
      assert s[..k + 1] == [s[0]] + s[1..][..k];
      k + 1
  }

  /** Position where the trailing white space begins. */
  function TrailingStart(s: string): (k: nat)
    ensures k <= |s|
    ensures AllSpace(s[k..])
    ensures k == 0 || !IsSpace(s[k - 1])
    decreases |s|
  {
    if |s| == 0 || !IsSpace(s[|s| - 1]) then |s|
    else
      var k := TrailingStart(s[..|s| - 1]);
      assert s[k..] == s[..|s| - 1][k..] + [s[|s| - 1]];
      k
  }

  /** `s.trim()`: the one slice of `s` that is trimmed and is flanked only by
      white space. */
  function Trim(s: string): (r: string)
    ensures Trimmed(r)
    ensures exists a, b :: 0 <= a <= b <= |s| && r == s[a..b] && AllSpace(s[..a]) && AllSpace(s[b..])
    ensures r == "" <==> AllSpace(s)
  {
    var a := LeadingSpace(s);
    if a == |s| then
      assert s[..a] == s && s[a..] == [];
      ""
    else
      var b := TrailingStart(s);
      assert a < b;
      assert !AllSpace(s) by { assert !IsSpace(s[a]); }
      assert s[a..b][0] == s[a] && s[a..b][b - a - 1] == s[b - 1];
      s[a..b]
  }

  /** `parts.join(' ')`. */
  function Join(parts: seq<string>): string
    requires |parts| >= 1
    decreases |parts|
  {
    if |parts| == 1 then parts[0] else parts[0] + " " + Join(parts[1..])
  }

  ghost predicate NoSpaceIn(parts: seq<string>)
  {
    forall i :: 0 <= i < |parts| ==> ' ' !in parts[i]
  }

  /** `s.split(' ')`: the maximal space-free pieces between single spaces,
      including empty ones (two spaces in a row produce an empty piece). */
  function Split(s: string): (parts: seq<string>)
    ensures |parts| >= 1
    ensures NoSpaceIn(parts)
    ensures Join(parts) == s
    decreases |s|
  {
    if |s| == 0 then [""]
    else
      var rest := Split(s[1..]);
      if s[0] == ' ' then
        assert s == " " + s[1..];
        [""] + rest
      else
        var word := [s[0]] + rest[0];
        var parts := [word] + rest[1..];
        assert parts[0] == word && parts[1..] == rest[1..];
        assert ' ' !in word;
        assert Join(parts) == [s[0]] + Join(rest) by {
          if |rest| > 1 {
            assert word + " " + Join(rest[1..]) == [s[0]] + (rest[0] + " " + Join(rest[1..]));
          }
        }
        assert s == [s[0]] + s[1..];
        parts
  }

  /** A space-free word followed by a space splits off as the first piece. */
  lemma {:induction false} SplitAfterWord(a: string, r: string)
    requires ' ' !in a
    ensures Split(a + " " + r) == [a] + Split(r)
    decreases |a|
  {
    var s := a + " " + r;
    if |a| == 0 {
      assert s == " " + r && s[1..] == r;
    } else {
      assert s[1..] == a[1..] + " " + r;
      SplitAfterWord(a[1..], r);
      assert s[0] == a[0];
      assert [a[0]] + a[1..] == a;
    }
  }

  /** Splitting undoes joining when no piece contains a space: the
      converse of Split's `Join(parts) == s`. */
  lemma {:induction false} SplitJoin(parts: seq<string>)
    requires |parts| >= 1 && NoSpaceIn(parts)
    ensures Split(Join(parts)) == parts
    decreases |parts|, |parts[0]|
  {
    var p := parts[0];
    if |p| == 0 {
      if |parts| > 1 {
        var tail := parts[1..];
        assert Join(parts) == " " + Join(tail);
        assert (" " + Join(tail))[1..] == Join(tail);
        SplitJoin(tail);
      }
    } else {
      var shorter := [p[1..]] + parts[1..];
      assert NoSpaceIn(shorter) by {
        forall i | 0 <= i < |shorter| ensures ' ' !in shorter[i] {
          if i == 0 {
            assert forall c :: c in p[1..] ==> c in p;
          } else {
            assert shorter[i] == parts[i];
          }
        }
      }
      assert shorter[1..] == parts[1..];
      if |parts| == 1 {
        assert Join(parts) == p && Join(shorter) == p[1..];
      } else {
        assert Join(parts) == p + " " + Join(parts[1..]);
        assert Join(shorter) == p[1..] + " " + Join(parts[1..]);
      }
      assert Join(parts) == [p[0]] + Join(shorter);
      assert Join(parts)[1..] == Join(shorter);
      assert p[0] != ' ' by { assert p[0] in p; }
      SplitJoin(shorter);
      assert [p[0]] + p[1..] == p;
    }
  }
}
