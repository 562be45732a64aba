/** The Python string operations the core relies on: `str.isspace`,
    `str.strip`, `str.split(",")`, `str.lower`, substring tests, the
    lexicographic order used for `order_by("name")`, and the decimal
    rendering of an integer inside an f-string. */
module Text {

  import opened Seqs

  /** The characters Python's `str.isspace` accepts: the Unicode whitespace
      characters, including the information separators 0x1C-0x1F. */
  const SpaceChars: set<char> :=
    {'\t', '\n', '\U{000B}', '\U{000C}', '\r', '\U{001C}', '\U{001D}', '\U{001E}',
     '\U{001F}', ' ', '\U{0085}', '\U{00A0}', '\U{1680}', '\U{2000}', '\U{2001}',
     '\U{2002}', '\U{2003}', '\U{2004}', '\U{2005}', '\U{2006}', '\U{2007}',
     '\U{2008}', '\U{2009}', '\U{200A}', '\U{2028}', '\U{2029}', '\U{202F}',
     '\U{205F}', '\U{3000}'}

  /** Python's `str.isspace` for one character. */
  predicate IsSpace(c: char)
  {
    c in SpaceChars
  }

  /** Drops the leading elements that satisfy `drop`: the result is a
      suffix of `s`, everything dropped satisfies `drop` and the first
      element left does not. */
  function TrimLeft<T>(s: seq<T>, drop: T -> bool): (r: seq<T>)
    ensures |r| <= |s| && r == s[|s| - |r|..]
    ensures forall i :: 0 <= i < |s| - |r| ==> drop(s[i])
    ensures r != [] ==> !drop(r[0])
  {
    if s != [] && drop(s[0]) then TrimLeft(s[1..], drop) else s
  }

  /** Drops the trailing elements that satisfy `drop`: the result is a
      prefix of `s`, everything dropped satisfies `drop` and the last element
      left does not. */
  function TrimRight<T>(s: seq<T>, drop: T -> bool): (r: seq<T>)
    ensures |r| <= |s| && r == s[..|r|]
    ensures forall i :: |r| <= i < |s| ==> drop(s[i])
    ensures r != [] ==> !drop(r[|r| - 1])
  {
    if s != [] && drop(s[|s| - 1]) then TrimRight(s[..|s| - 1], drop) else s
  }

  /** Trimming both ends. */
  function Trim<T>(s: seq<T>, drop: T -> bool): (r: seq<T>)
    ensures |r| <= |s|
    ensures r != [] ==> !drop(r[0]) && !drop(r[|r| - 1])
  {
    TrimRight(TrimLeft(s, drop), drop)
  }

  /** `r` is the slice `s[i..j]` and everything outside it satisfies `drop`. */
  ghost predicate TrimmedSlice<T>(s: seq<T>, drop: T -> bool, i: int, j: int, r: seq<T>)
  {
    && 0 <= i <= j <= |s| && r == s[i..j]
    && (forall k :: 0 <= k < i ==> drop(s[k]))
    && (forall k :: j <= k < |s| ==> drop(s[k]))
  }

  /** What `Trim` removes: the result is a slice of `s`, and everything
      outside the slice satisfies `drop`. */
  lemma TrimIsSlice<T>(s: seq<T>, drop: T -> bool) returns (i: int)
    ensures TrimmedSlice(s, drop, i, i + |Trim(s, drop)|, Trim(s, drop))
  {
    var t := TrimLeft(s, drop);
    var r := TrimRight(t, drop);
    assert Trim(s, drop) == r;
    i := |s| - |t|;
    PrefixOfSuffix(s, t, r, i, drop);
  }

  /** A prefix `r` of the suffix `t == s[i..]` is the slice `s[i..i + |r|]`;
      when everything before `i` and everything in `t` after `r` satisfies
      `drop`, so does everything outside the slice. */
  lemma PrefixOfSuffix<T>(s: seq<T>, t: seq<T>, r: seq<T>, i: int, drop: T -> bool)
    requires 0 <= i <= |s| && t == s[i..] && |r| <= |t| && r == t[..|r|]
    requires forall k :: 0 <= k < i ==> drop(s[k])
    requires forall k :: |r| <= k < |t| ==> drop(t[k])
    ensures TrimmedSlice(s, drop, i, i + |r|, r)
  {
    TakeOfDrop(s, i, |r|);
    forall k | i + |r| <= k < |s| ensures drop(s[k]) {
      assert s[k] == t[k - i];
    }
  }

  /** Python's `str.strip()`: no whitespace left at either end. */
  function Strip(s: string): (r: string)
    ensures IsStripped(r) && |r| <= |s|
  {
    Trim(s, IsSpace)
  }

  /** No whitespace at either end. */
  predicate IsStripped(s: string)
  {
    s != [] ==> !IsSpace(s[0]) && !IsSpace(s[|s| - 1])
  }

  /** What `Strip` removes: the result is a slice of `s` and everything
      outside the slice is whitespace. */
  lemma StripIsSlice(s: string)
    ensures exists i, j :: TrimmedSlice(s, IsSpace, i, j, Strip(s))
  {
    var i := TrimIsSlice(s, IsSpace);
    assert TrimmedSlice(s, IsSpace, i, i + |Strip(s)|, Strip(s));
  }

  /** The string holds no comma. */
  predicate NoComma(s: string)
  {
    forall k :: 0 <= k < |s| ==> s[k] != ','
  }

  /** The string holds no U+0000, which Django's `ProhibitNullCharactersValidator`
      requires of every `CharField` value. */
  predicate NoNull(s: string)
  {
    forall k :: 0 <= k < |s| ==> s[k] != '\U{0000}'
  }

  /** Stripping removes no comma: a comma-free string stays comma-free. */
  lemma StripKeepsNoComma(s: string)
    ensures NoComma(s) ==> NoComma(Strip(s))
  {
    var i := TrimIsSlice(s, IsSpace);
    var r := Strip(s);
    assert forall k :: 0 <= k < |r| ==> r[k] == s[i + k];
  }

  /** Index of the first comma of `s`, or `|s|` when there is none. */
  function IndexOfComma(s: string): (i: nat)
    ensures i <= |s|
    ensures i < |s| ==> s[i] == ','
    ensures forall k :: 0 <= k < i ==> s[k] != ','
  {
    if s == [] || s[0] == ',' then 0 else 1 + IndexOfComma(s[1..])
  }

  /** A comma with no comma before it is the first comma. */
  lemma IndexOfCommaAt(s: string, j: nat)
    requires j <= |s| && (j < |s| ==> s[j] == ',')
    requires forall k :: 0 <= k < j ==> s[k] != ','
    ensures IndexOfComma(s) == j
  {
  }

  /** Python's `s.split(",")`: the text between commas, from left to right. */
  function Split(s: string): (r: seq<string>)
    ensures |r| >= 1
    decreases |s|
  {
    var i := IndexOfComma(s);
    if i == |s| then [s] else [s[..i]] + Split(s[i + 1..])
  }

  /** A comma-free string is a single piece. */
  lemma SplitNone(s: string)
    requires NoComma(s)
    ensures Split(s) == [s]
  {
    IndexOfCommaAt(s, |s|);
  }

  /** The first comma ends the first piece. */
  lemma SplitAt(s: string, i: nat)
    requires i < |s| && s[i] == ','
    requires forall k :: 0 <= k < i ==> s[k] != ','
    ensures Split(s) == [s[..i]] + Split(s[i + 1..])
  {
    IndexOfCommaAt(s, i);
  }

  /** No piece of a split holds a comma. */
  lemma {:induction false} SplitNoComma(s: string)
    ensures forall k :: 0 <= k < |Split(s)| ==> NoComma(Split(s)[k])
    decreases |s|
  {
    var i := IndexOfComma(s);
    if i < |s| {
      var rest := Split(s[i + 1..]);
      SplitNoComma(s[i + 1..]);
      SplitAt(s, i);
      var r := [s[..i]] + rest;
      assert forall k :: 1 <= k < |r| ==> r[k] == rest[k - 1];
    }
  }

  /** Python's `",".join(pieces)`. */
  function Join(pieces: seq<string>): string
  {
    if |pieces| <= 1 then (if pieces == [] then "" else pieces[0])
    else pieces[0] + "," + Join(pieces[1..])
  }

  /** Joining a piece in front of a non-empty list puts a comma between. */
  lemma JoinCons(x: string, rest: seq<string>)
    requires |rest| >= 1
    ensures Join([x] + rest) == x + "," + Join(rest)
  {
    assert ([x] + rest)[0] == x && ([x] + rest)[1..] == rest;
  }

  /** Joining the pieces of a split gives back the original string. */
  lemma {:induction false} JoinSplit(s: string)
    ensures Join(Split(s)) == s
    decreases |s|
  {
    var i := IndexOfComma(s);
    if i < |s| {
      var rest := s[i + 1..];
      JoinSplit(rest);
      SplitAt(s, i);
      JoinCons(s[..i], Split(rest));
      assert s == s[..i] + "," + rest;
    }
  }

  /** When the first comma of `a` is at `i`, it is also the first comma of
      `a,b`. */
  lemma FirstPieceOfAppend(a: string, b: string, i: nat)
    requires i < |a| && a[i] == ','
    requires forall k :: 0 <= k < i ==> a[k] != ','
    ensures Split(a + "," + b) == [a[..i]] + Split(a[i + 1..] + "," + b)
  {
    var s := a + "," + b;
    assert forall k :: 0 <= k <= i ==> s[k] == a[k];
    SplitAt(s, i);
    assert s[..i] == a[..i];
    DropAppend(a + ",", b, i + 1);
    DropAppend(a, ",", i + 1);
  }

  /** Splitting at a comma splits the pieces there: `split` distributes over
      concatenation with a separator, so it keeps the pieces' order. */
  lemma {:induction false} SplitAppend(a: string, b: string)
    ensures Split(a + "," + b) == Split(a) + Split(b)
    decreases |a|
  {
    var i := IndexOfComma(a);
    if i == |a| {
      var s := a + "," + b;
      assert forall k :: 0 <= k < |a| ==> s[k] == a[k];
      SplitNone(a);
      SplitAt(s, i);
      TakeAppend(a + ",", b, i);
      TakeAppend(a, ",", i);
      DropAppend(a + ",", b, i + 1);
    } else {
      FirstPieceOfAppend(a, b, i);
      SplitAppend(a[i + 1..], b);
      SplitAt(a, i);
      AppendAssoc([a[..i]], Split(a[i + 1..]), Split(b));
    }
  }

  /** ASCII case folding of one character (`str.lower` on ASCII letters). */
  function LowerChar(c: char): char
  {
    if 'A' <= c <= 'Z' then (c as int + 32) as char else c
  }

  /** ASCII lower-casing, character by character. */
  function Lower(s: string): (r: string)
    ensures |r| == |s|
    ensures forall i :: 0 <= i < |s| ==> r[i] == LowerChar(s[i])
  {
    seq(|s|, i requires 0 <= i < |s| => LowerChar(s[i]))
  }

  /** Lower-casing twice is lower-casing once. */
  lemma LowerIdempotent(s: string)
    ensures Lower(Lower(s)) == Lower(s)
  {
  }

  /** Direct substring test, the meaning of SQL `LIKE '%sub%'`. */
  ghost predicate OccursIn(sub: string, s: string)
  {
    exists i :: OccursAt(sub, s, i)
  }

  /** `sub` stands in `s` from index `i` on. */
  ghost predicate OccursAt(sub: string, s: string, i: int)
  {
    0 <= i <= |s| - |sub| && s[i..i + |sub|] == sub
  }

  /** `sub` occurs in `s` somewhere (Python's `sub in s`). */
  function Contains(s: string, sub: string): (b: bool)
    ensures b <==> OccursIn(sub, s)
    decreases |s|
  {
    if |sub| > |s| then
      assert !OccursIn(sub, s);
      false
    else if s[..|sub|] == sub then
      assert OccursAt(sub, s, 0);
      true
    else
      var b := Contains(s[1..], sub);
      assert OccursIn(sub, s[1..]) ==> OccursIn(sub, s) by {
        if OccursIn(sub, s[1..]) {
          var i :| OccursAt(sub, s[1..], i);
          assert s[i + 1..i + 1 + |sub|] == s[1..][i..i + |sub|];
          assert OccursAt(sub, s, i + 1);
        }
      }
      assert OccursIn(sub, s) ==> OccursIn(sub, s[1..]) by {
        if OccursIn(sub, s) {
          var i :| OccursAt(sub, s, i);
          assert i != 0;
          assert s[1..][i - 1..i - 1 + |sub|] == s[i..i + |sub|];
          assert OccursAt(sub, s[1..], i - 1);
        }
      }
      b
  }

  /** Case-insensitive substring test: Django's `icontains`, ASCII folding. */
  function IContains(s: string, sub: string): (b: bool)
    ensures b <==> OccursIn(Lower(sub), Lower(s))
  {
    Contains(Lower(s), Lower(sub))
  }

  /** Case-insensitive equality: Django's `iexact`, ASCII folding. */
  predicate IEquals(a: string, b: string)
  {
    Lower(a) == Lower(b)
  }

  /** Lexicographic order on code points (`<=` on Python strings). */
  predicate StrLe(a: string, b: string)
    decreases |a|
  {
    if a == [] then true
    else if b == [] then false
    else if a[0] != b[0] then a[0] < b[0]
    else StrLe(a[1..], b[1..])
  }

  lemma {:induction false} StrLeTotal(a: string, b: string)
    ensures StrLe(a, b) || StrLe(b, a)
    decreases |a|
  {
    if a != [] && b != [] && a[0] == b[0] { StrLeTotal(a[1..], b[1..]); }
  }

  lemma {:induction false} StrLeTransitive(a: string, b: string, c: string)
    requires StrLe(a, b) && StrLe(b, c)
    ensures StrLe(a, c)
    decreases |a|
  {
    if a != [] && b != [] && c != [] && a[0] == b[0] && b[0] == c[0] {
      StrLeTransitive(a[1..], b[1..], c[1..]);
    }
  }

  lemma {:induction false} StrLeAntisymmetric(a: string, b: string)
    requires StrLe(a, b) && StrLe(b, a)
    ensures a == b
    decreases |a|
  {
    if a != [] && b != [] {
      StrLeAntisymmetric(a[1..], b[1..]);
      assert a == [a[0]] + a[1..] && b == [b[0]] + b[1..];
    }
  }

  /** The decimal digit for 0..9. */
  function DigitChar(d: nat): (c: char)
    requires d < 10
    ensures '0' <= c <= '9' && c as int - '0' as int == d
  {
    ('0' as int + d) as char
  }

  /** Python's `str(n)` for a natural number, as in `f"{base}-{counter}"`. */
  function NatToString(n: nat): (s: string)
    ensures |s| >= 1
    ensures forall i :: 0 <= i < |s| ==> '0' <= s[i] <= '9'
  {
    if n < 10 then [DigitChar(n)] else NatToString(n / 10) + [DigitChar(n % 10)]
  }

  /** Reads a string of decimal digits back as a number. */
  function ParseNat(s: string): nat
    requires forall i :: 0 <= i < |s| ==> '0' <= s[i] <= '9'
  {
    if s == [] then 0 else ParseNat(s[..|s| - 1]) * 10 + (s[|s| - 1] as int - '0' as int)
  }

  /** Rendering a number and reading it back gives the number. */
  lemma {:induction false} ParseNatToString(n: nat)
    ensures ParseNat(NatToString(n)) == n
  {
    if n >= 10 {
      var s := NatToString(n);
      ParseNatToString(n / 10);
      assert s[..|s| - 1] == NatToString(n / 10);
    }
  }

  /** Different numbers render differently. */
  lemma NatToStringInjective(m: nat, n: nat)
    requires NatToString(m) == NatToString(n)
    ensures m == n
  {
    ParseNatToString(m);
    ParseNatToString(n);
  }
}
