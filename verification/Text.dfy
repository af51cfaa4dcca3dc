/** Byte strings: the comparisons, joins and trims that the Go code takes from its
    standard library. One `char` stands for one byte. */
module Text {

  /** Go's `<` on strings: bytewise lexicographic order. */
  predicate Less(a: string, b: string) {
    b != [] && (a == [] || a[0] < b[0] || (a[0] == b[0] && Less(a[1..], b[1..])))
  }

  lemma {:induction false} LessIsTotal(a: string, b: string)
    ensures !(Less(a, b) && Less(b, a))
    ensures a != b ==> Less(a, b) || Less(b, a)
    ensures a == b ==> !Less(a, b)
  {
    if a != [] && b != [] {
      LessIsTotal(a[1..], b[1..]);
      assert a == [a[0]] + a[1..] && b == [b[0]] + b[1..];
    }
  }

  lemma {:induction false} LessTransitive(a: string, b: string, c: string)
    requires Less(a, b) && Less(b, c)
    ensures Less(a, c)
  {
    if a != [] && a[0] == b[0] == c[0] {
      LessTransitive(a[1..], b[1..], c[1..]);
    }
  }

  /** `a` is bytewise smaller: a proper prefix, or smaller at the first difference. */
  ghost predicate BytewiseLess(a: string, b: string) {
    exists i :: 0 <= i < |b| && i <= |a| && a[..i] == b[..i] && (i == |a| || a[i] < b[i])
  }

  lemma {:induction false} LessIsBytewise(a: string, b: string)
    ensures Less(a, b) <==> BytewiseLess(a, b)
  {
    if a != [] && b != [] && a[0] == b[0] {
      LessIsBytewise(a[1..], b[1..]);
      if i :| 0 <= i < |b| && i <= |a| && a[..i] == b[..i] && (i == |a| || a[i] < b[i]) {
        assert i > 0 && a[1..][..i - 1] == a[..i][1..] && b[1..][..i - 1] == b[..i][1..];
      }
      var a', b' := a[1..], b[1..];
      if i :| 0 <= i < |b'| && i <= |a'| && a'[..i] == b'[..i] && (i == |a'| || a'[i] < b'[i]) {
        assert a[..i + 1] == [a[0]] + a[1..][..i] && b[..i + 1] == [b[0]] + b[1..][..i];
      }
    } else if b != [] {
      assert a[..0] == b[..0];
    }
  }

  predicate IsSpace(c: char) {
    c == ' ' || c == '\t' || c == '\n' || c == '\r' || c == 11 as char || c == 12 as char
  }

  function TrimLeftSpace(s: string): string {
    if s != [] && IsSpace(s[0]) then TrimLeftSpace(s[1..]) else s
  }

  function TrimRightSpace(s: string): string {
    if s != [] && IsSpace(s[|s| - 1]) then TrimRightSpace(s[..|s| - 1]) else s
  }

  /** strings.TrimSpace on ASCII text. */
  function TrimSpace(s: string): string {
    TrimRightSpace(TrimLeftSpace(s))
  }

  /** Tab, newline, vertical tab, form feed, carriage return, blank. */
  predicate White(s: string) { forall i :: 0 <= i < |s| ==> 9 <= s[i] as int <= 13 || s[i] as int == 32 }

  /** `t` is `s` without the white space around it. */
  ghost predicate TrimmedTo(s: string, t: string) {
    && (t != "" ==> !White(t[..1]) && !White(t[|t| - 1..]))
    && exists pre, post :: White(pre) && White(post) && s == pre + t + post
  }

  lemma {:induction false} TrimLeftDrops(s: string) returns (pre: string)
    ensures White(pre) && s == pre + TrimLeftSpace(s)
    ensures TrimLeftSpace(s) != "" ==> !White(TrimLeftSpace(s)[..1])
  {
    if s != [] && IsSpace(s[0]) {
      pre := TrimLeftDrops(s[1..]);
      pre := [s[0]] + pre;
    } else {
      pre := "";
      if s != [] { assert s[..1][0] == s[0]; }
    }
  }

  lemma {:induction false} TrimRightDrops(s: string) returns (post: string)
    ensures White(post) && s == TrimRightSpace(s) + post
    ensures TrimRightSpace(s) != "" ==> !White(TrimRightSpace(s)[|TrimRightSpace(s)| - 1..])
  {
    if s != [] && IsSpace(s[|s| - 1]) {
      post := TrimRightDrops(s[..|s| - 1]);
      post := post + [s[|s| - 1]];
    } else {
      post := "";
      if s != [] { assert s[|s| - 1..][0] == s[|s| - 1]; }
    }
  }

  lemma {:induction false} TrimLeftPasses(pre: string, s: string)
    requires White(pre) && (s != "" ==> !White(s[..1]))
    ensures TrimLeftSpace(pre + s) == s
  {
    if pre != [] {
      assert (pre + s)[1..] == pre[1..] + s;
      TrimLeftPasses(pre[1..], s);
    } else {
      assert pre + s == s;
      if s != [] { assert s[..1] == [s[0]]; }
    }
  }

  lemma {:induction false} TrimRightPasses(s: string, post: string)
    requires White(post) && (s != "" ==> !White(s[|s| - 1..]))
    ensures TrimRightSpace(s + post) == s
  {
    if post != [] {
      assert (s + post)[..|s + post| - 1] == s + post[..|post| - 1];
      TrimRightPasses(s, post[..|post| - 1]);
    } else {
      assert s + post == s;
      if s != [] { assert s[|s| - 1..] == [s[|s| - 1]]; }
    }
  }

  lemma TrimSpaceExactly(s: string, t: string)
    ensures TrimSpace(s) == t <==> TrimmedTo(s, t)
  {
    var left := TrimLeftSpace(s);
    var pre := TrimLeftDrops(s);
    var post := TrimRightDrops(left);
    var core := TrimSpace(s);
    assert s == pre + core + post;
    if core != "" { assert left[..1] == core[..1]; }
    if TrimmedTo(s, t) {
      var pre', post' :| White(pre') && White(post') && s == pre' + t + post';
      TrimIs(pre', t, post');
    }
  }

  lemma TrimIs(pre: string, t: string, post: string)
    requires White(pre) && White(post) && (t != "" ==> !White(t[..1]) && !White(t[|t| - 1..]))
    ensures TrimSpace(pre + t + post) == t
  {
    assert pre + t + post == pre + (t + post);
    if t == "" {
      TrimLeftPasses(pre + post, "");
      assert pre + (t + post) == pre + post + "";
    } else {
      assert (t + post)[..1] == t[..1];
      TrimLeftPasses(pre, t + post);
      TrimRightPasses(t, post);
    }
  }

  /** strings.Join. */
  function Join(parts: seq<string>, sep: string): string {
    if parts == [] then []
    else if |parts| == 1 then parts[0]
    else parts[0] + sep + Join(parts[1..], sep)
  }

  /** strings.Split on a one-byte separator. */
  function Split(s: string, sep: char): (parts: seq<string>)
    ensures |parts| >= 1
  {
    if s == [] then [[]]
    else if s[0] == sep then [[]] + Split(s[1..], sep)
    else
      var rest := Split(s[1..], sep);
      [[s[0]] + rest[0]] + rest[1..]
  }

  lemma {:induction false} JoinSplit(s: string, sep: char)
    ensures Join(Split(s, sep), [sep]) == s
    ensures forall p :: p in Split(s, sep) ==> sep !in p
  {
    if s != [] {
      JoinSplit(s[1..], sep);
      var rest := Split(s[1..], sep);
      var parts := Split(s, sep);
      assert s == [s[0]] + s[1..];
      if s[0] == sep {
        assert parts[1..] == rest;
      } else {
        assert parts[1..] == rest[1..];
        assert Join(parts, [sep]) == [s[0]] + Join(rest, [sep]);
      }
    }
  }

  /** Splitting off a first part that holds no separator. */
  lemma {:induction false} SplitFirst(head: string, tail: string, sep: char)
    requires sep !in head
    ensures Split(head + [sep] + tail, sep) == [head] + Split(tail, sep)
    ensures Split(head, sep) == [head]
  {
    var s := head + [sep] + tail;
    if head == [] {
      assert s[1..] == tail;
    } else {
      SplitFirst(head[1..], tail, sep);
      assert s[1..] == head[1..] + [sep] + tail;
      assert head == [head[0]] + head[1..];
    }
  }

  lemma {:induction false} SplitJoin(parts: seq<string>, sep: char)
    requires parts != []
    requires forall p :: p in parts ==> sep !in p
    ensures Split(Join(parts, [sep]), sep) == parts
  {
    if |parts| == 1 {
      SplitFirst(parts[0], [], sep);
    } else {
      SplitJoin(parts[1..], sep);
      SplitFirst(parts[0], Join(parts[1..], [sep]), sep);
      assert parts == [parts[0]] + parts[1..];
    }
  }

  /** A separator that occurs in neither left part makes concatenation injective. */
  lemma {:induction false} CutIsUnique(a: string, b: string, x: string, y: string, sep: char)
    requires sep !in a && sep !in b
    requires a + [sep] + x == b + [sep] + y
    ensures a == b && x == y
  {
    SplitFirst(a, x, sep);
    SplitFirst(b, y, sep);
    assert ([a] + Split(x, sep))[0] == ([b] + Split(y, sep))[0];
    assert x == (a + [sep] + x)[|a| + 1..] && y == (b + [sep] + y)[|b| + 1..];
  }

  predicate IsDigit(c: char) { '0' <= c <= '9' }

  /** One or more of the ten decimal digits. */
  predicate DigitString(s: string) { s != "" && forall c :: c in s ==> c in "0123456789" }

  lemma AllDigitsExactly(s: string)
    ensures AllDigits(s) <==> DigitString(s)
  {
    assert forall c :: c in "0123456789" <==> IsDigit(c);
    if DigitString(s) { forall i | 0 <= i < |s| ensures IsDigit(s[i]) { assert s[i] in s; } }
  }

  predicate AllDigits(s: string) {
    s != [] && forall i :: 0 <= i < |s| ==> IsDigit(s[i])
  }

  /** The value of a decimal digit string, leading zeros included. */
  function Value(s: string): nat
    requires forall i :: 0 <= i < |s| ==> IsDigit(s[i])
  {
    if s == [] then 0
    else
      assert IsDigit(s[|s| - 1]);
      10 * Value(s[..|s| - 1]) + (s[|s| - 1] as int - '0' as int)
  }

  /** Decimal printing without leading zeros. */
  function Decimal(n: nat): (s: string)
    ensures AllDigits(s)
  {
    var d := [('0' as int + n % 10) as char];
    if n < 10 then d else Decimal(n / 10) + d
  }

  lemma {:induction false} ValueDecimal(n: nat)
    ensures Value(Decimal(n)) == n
  {
    var s := Decimal(n);
    if n >= 10 {
      ValueDecimal(n / 10);
      assert s[..|s| - 1] == Decimal(n / 10);
    } else {
      assert s[..|s| - 1] == [];
    }
  }
}
