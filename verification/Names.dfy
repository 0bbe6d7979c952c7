/** The 8.3 file names: between directory entries, strings and the names a path look-up compares. */
module Names {
  import opened Bytes

  const DOT: byte := 0x2E
  const SLASH: byte := 0x2F
  const SPACE: byte := 0x20

  /** The version of a character that goes into a directory entry: 0 for the end of the string, 1 if illegal. */
  function Doschar(c: byte): byte {
    if c == 0 then 0
    else if c == SLASH || c == 0x5C then SLASH
    else if c == DOT then DOT
    else if 0x41 <= c <= 0x5A then c
    else if 0x30 <= c <= 0x39 then c
    else if 0x61 <= c <= 0x7A then c - 0x20
    else if c == 0xE5 then 0x05
    else if c > 127 then c
    else if c in {SPACE, 0x21, 0x23, 0x24, 0x25, 0x26, 0x27, 0x28, 0x29} then c
    else if c in {0x2D, 0x40, 0x5E, 0x5F, 0x60, 0x7B, 0x7D, 0x7E} then c
    else 1
  }

  /** What doschar leaves alone, other than its special results and the space. */
  predicate Plain(c: byte) {
    Doschar(c) == c && c > 1 && c != SPACE && c != DOT && c != SLASH
  }

  predicate AllPlain(s: seq<byte>) {
    forall i :: 0 <= i < |s| ==> Plain(s[i])
  }

  /** Character i of a string, or its end. */
  function At(s: seq<byte>, i: nat): byte
    requires i <= |s|
  {
    if i < |s| then s[i] else 0
  }

  predicate NoZero(s: seq<byte>) {
    forall i :: 0 <= i < |s| ==> s[i] != 0
  }

  function Spaces(n: nat): (s: seq<byte>)
    ensures |s| == n && forall i :: 0 <= i < n ==> s[i] == SPACE
  {
    seq(n, _ => SPACE)
  }

  /** The eleven bytes of a directory entry with base b and extension e. */
  function Name(b: seq<byte>, e: seq<byte>): (n: seq<byte>)
    requires |b| <= 8 && |e| <= 3
    ensures |n| == 11
  {
    b + Spaces(8 - |b|) + e + Spaces(3 - |e|)
  }

  /** The string a user sees. */
  function Text(b: seq<byte>, e: seq<byte>): seq<byte> {
    if e == [] then b else b + [DOT] + e
  }

  /** The string at the front of a buffer. */
  predicate HoldsString(buf: seq<byte>, s: seq<byte>) {
    |s| < |buf| && buf[..|s|] == s && buf[|s|] == 0
  }

  // ---------------------------------------------------------------- from an entry to a string

  /** s without its spaces. */
  function NonSpaces(s: seq<byte>): (r: seq<byte>)
    ensures |r| <= |s|
  {
    if s == [] then [] else
    var n := |s| - 1;
    NonSpaces(s[..n]) + if s[n] != SPACE then [s[n]] else []
  }

  /** s up to its first space. */
  function UntilSpace(s: seq<byte>): (r: seq<byte>)
    ensures |r| <= |s| && r == s[..|r|] && SPACE !in r && (|r| < |s| ==> s[|r|] == SPACE)
  {
    if s == [] || s[0] == SPACE then [] else [s[0]] + UntilSpace(s[1..])
  }

  function ToString(name: seq<byte>): (s: seq<byte>)
    requires |name| == 11
    ensures |s| <= 12
  {
    NonSpaces(name[..8]) + if name[8] == SPACE then [] else [DOT] + UntilSpace(name[8..])
  }

  /** Strips the padding spaces and adds a dot if there is an extension. */
  method FatnameToStr(output: array<byte>, input: seq<byte>)
    requires |input| == 11 && output.Length >= 13
    modifies output
    ensures HoldsString(output[..], ToString(input))
  {
    var o := CopyBase(output, input);
    if input[8] == SPACE {
      output[o] := 0;
      return;
    }
    output[o] := DOT;
    CopyExtension(output, o + 1, input);
  }

  method CopyBase(output: array<byte>, input: seq<byte>) returns (o: nat)
    requires |input| == 11 && output.Length >= 13
    modifies output
    ensures o <= 8 && output[..o] == NonSpaces(input[..8])
  {
    o := 0;
    var i := 0;
    while i < 8
      invariant i <= 8 && o <= i && output[..o] == NonSpaces(input[..i])
    {
      assert input[..i + 1][..i] == input[..i];
      if input[i] != SPACE {
        output[o] := input[i];
        o := o + 1;
      }
      i := i + 1;
    }
  }

  method CopyExtension(output: array<byte>, o: nat, input: seq<byte>)
    requires |input| == 11 && output.Length >= 13 && o <= 9
    modifies output
    ensures var e := UntilSpace(input[8..]);
      o + |e| < output.Length && output[..o] == old(output[..o]) && output[o..o + |e|] == e && output[o + |e|] == 0
  {
    ghost var e, x := UntilSpace(input[8..]), output[..o];
    var i := 0;
    while i < 3
      invariant i <= |e| <= 3 && output[..o] == x && output[o..o + i] == e[..i]
    {
      if input[8 + i] == SPACE {
        break;
      }
      output[o + i] := input[8 + i];
      i := i + 1;
    }
    output[o + i] := 0;
  }

  lemma {:induction false} NonSpacesPadded(b: seq<byte>, n: nat)
    requires AllPlain(b)
    ensures NonSpaces(b + Spaces(n)) == b
    decreases |b| + n
  {
    var s := b + Spaces(n);
    if n > 0 {
      assert s[..|s| - 1] == b + Spaces(n - 1);
      NonSpacesPadded(b, n - 1);
    } else if b != [] {
      assert s[..|s| - 1] == b[..|b| - 1] + Spaces(0);
      NonSpacesPadded(b[..|b| - 1], 0);
    }
  }

  lemma {:induction false} UntilSpacePadded(e: seq<byte>, n: nat)
    requires AllPlain(e)
    ensures UntilSpace(e + Spaces(n)) == e
  {
    var s := e + Spaces(n);
    if e != [] {
      assert s[1..] == e[1..] + Spaces(n);
      UntilSpacePadded(e[1..], n);
    }
  }

  lemma NoSpace(e: seq<byte>)
    requires AllPlain(e)
    ensures e != [] ==> e[0] != SPACE
  {
  }

  /** Reading back an entry with a plain name gives its string. */
  lemma StringOfName(b: seq<byte>, e: seq<byte>)
    requires |b| <= 8 && |e| <= 3 && AllPlain(b) && AllPlain(e)
    ensures ToString(Name(b, e)) == Text(b, e)
  {
    hide NonSpaces, UntilSpace, AllPlain, Name, Spaces, Doschar;
    NameParts(b, e);
    NoSpace(e);
    NonSpacesPadded(b, 8 - |b|);
    UntilSpacePadded(e, 3 - |e|);
    if e == [] {
      assert b + [] == b;
    } else {
      assert b + ([DOT] + e) == b + [DOT] + e;
    }
  }

  lemma NameParts(b: seq<byte>, e: seq<byte>)
    requires |b| <= 8 && |e| <= 3
    ensures var n := Name(b, e);
      && n[..8] == b + Spaces(8 - |b|) && n[8..] == e + Spaces(3 - |e|)
      && n[8] == if e == [] then SPACE else e[0]
  {
    var n := Name(b, e);
    assert n == (b + Spaces(8 - |b|)) + (e + Spaces(3 - |e|));
  }

  // ---------------------------------------------------------------- from a string to a short name

  /** The outcome of making a short name: an illegal character, or a string. */
  datatype Short = Illegal | Made(s: seq<byte>)

  /** The position of the last dot in s[1..n], or 0. */
  function LastDot(s: seq<byte>, n: nat): (i: nat)
    requires n < |s|
    ensures i <= n && (i > 0 ==> s[i] == DOT) && forall k :: i < k <= n ==> s[k] != DOT
  {
    if n == 0 then 0 else if s[n] == DOT then n else LastDot(s, n - 1)
  }

  /** Where the name in front of the extension ends. */
  function BaseLength(url: seq<byte>): (n: nat)
    requires url != []
    ensures n <= |url|
  {
    if url[|url| - 1] == DOT then |url| - 1
    else if |url| >= 2 && LastDot(url, |url| - 2) > 0 then LastDot(url, |url| - 2)
    else |url|
  }

  function Extension(url: seq<byte>): (e: seq<byte>)
    requires url != []
  {
    if BaseLength(url) == |url| then [] else url[BaseLength(url) + 1..]
  }

  /** The string in upper case. */
  function Upper(s: seq<byte>): (u: seq<byte>)
    ensures |u| == |s| && forall i :: 0 <= i < |s| ==> u[i] == Doschar(s[i])
  {
    seq(|s|, i requires 0 <= i < |s| => Doschar(s[i]))
  }

  /** How many characters are copied before a dot, an illegal character, the end or the limit. */
  function RunEnd(url: seq<byte>, j: nat, limit: nat): (k: nat)
    requires j <= limit && j <= |url|
    ensures j <= k <= limit && k <= |url|
    ensures forall i :: j <= i < k ==> Doschar(url[i]) != DOT && Doschar(url[i]) > 1
    ensures k < limit && k < |url| ==> Doschar(url[k]) <= 1 || Doschar(url[k]) == DOT
    decreases limit - j
  {
    if j == limit || j == |url| || Doschar(url[j]) <= 1 || Doschar(url[j]) == DOT then j else RunEnd(url, j + 1, limit)
  }

  /** How much of the name is kept: six characters and a tail when it has to be shortened. */
  function Limit(url: seq<byte>): (n: nat)
    requires url != []
    ensures n == 6 || n == 8
  {
    if BaseLength(url) > 8 || |Extension(url)| > 3 then 6 else 8
  }

  /** The first three characters of the extension. */
  function ShortExtension(url: seq<byte>): (x: seq<byte>)
    requires url != []
    ensures |x| <= 3
  {
    if |Extension(url)| <= 3 then Extension(url) else Extension(url)[..3]
  }

  /** The tail that shortened names get: ~1. */
  function Tail(url: seq<byte>): (t: seq<byte>)
    requires url != []
    ensures |t| == 8 - Limit(url)
  {
    if Limit(url) == 6 then [0x7E, 0x31] else []
  }

  /** The short name of a string. */
  function ShortName(url: seq<byte>): (r: Short)
    requires url != [] && NoZero(url)
    ensures r.Made? ==> |r.s| <= 12
  {
    var k := RunEnd(url, 0, Limit(url));
    if k < Limit(url) && k == |url| then Made(Upper(url))
    else if k < Limit(url) && Doschar(url[k]) == 1 then Illegal
    else if 1 in Upper(ShortExtension(url)) then Illegal
    else Made(Upper(url[..k]) + Tail(url) + [DOT] + Upper(ShortExtension(url)))
  }

  lemma DoscharZero(c: byte)
    ensures (Doschar(c) == 0 <==> c == 0) && Doschar(c) != 0xE5
  {
  }

  /** Control characters, DEL and the characters " * + , : ; < = > ? [ ] | have no place in a short name. */
  predicate Forbidden(c: byte) {
    0 < c < 0x20 || c == 0x7F || c in {0x22, 0x2A, 0x2B, 0x2C, 0x5B, 0x5D, 0x7C} || 0x3A <= c <= 0x3F
  }

  predicate LetterOrDigit(c: byte) {
    0x30 <= c <= 0x39 || 0x41 <= c <= 0x5A || 0x61 <= c <= 0x7A
  }

  /** A letter in upper case; anything else as it is. */
  function Capital(c: byte): byte {
    if 0x61 <= c <= 0x7A then c - 0x20 else c
  }

  lemma DoscharMeaning(c: byte)
    ensures Doschar(c) == 1 <==> Forbidden(c)
    ensures LetterOrDigit(c) ==> Doschar(c) == Capital(c) && Doschar(c) > 1 && Doschar(c) != DOT
    ensures Doschar(c) == DOT <==> c == DOT
    ensures Doschar(c) == SLASH <==> c == SLASH || c == 0x5C
    ensures !Forbidden(c) && !LetterOrDigit(c) && c != 0x5C && c != 0xE5 ==> Doschar(c) == c
    ensures Doschar(0xE5) == 0x05
  {
  }

  /** The same in characters. */
  lemma DoscharOf(c: char)
    ensures 'a' <= c <= 'z' ==> Doschar(Code(c)) == Code(c) - Code('a') + Code('A')
    ensures 'A' <= c <= 'Z' || '0' <= c <= '9' ==> Doschar(Code(c)) == Code(c)
    ensures c in {'"', '*', '+', ',', ':', ';', '<', '=', '>', '?', '[', ']', '|'} ==> Doschar(Code(c)) == 1
    ensures c in {'!', '#', '$', '%', '&', '\'', '(', ')', '-', '@', '^', '_', '`', '{', '}', '~', ' '} ==>
      Doschar(Code(c)) == Code(c)
    ensures c == '/' || c == '\\' ==> Doschar(Code(c)) == Code('/')
    ensures c == '.' ==> Doschar(Code(c)) == Code('.')
  {
  }

  function Code(c: char): byte {
    c as int % 256
  }

  predicate NoneForbidden(url: seq<byte>) {
    forall i :: 0 <= i < |url| ==> !Forbidden(url[i])
  }

  /** One of the first six characters is forbidden, and no dot is in front of it. */
  ghost predicate ForbiddenEarly(url: seq<byte>) {
    exists i :: 0 <= i < 6 && i < |url| && Forbidden(url[i]) && DOT !in url[..i]
  }

  predicate LettersAndDigits(url: seq<byte>) {
    forall i :: 0 <= i < |url| ==> LetterOrDigit(url[i])
  }

  /** Strings without forbidden characters have a short name; an early forbidden character is fatal. */
  lemma ShortNameFails(url: seq<byte>)
    requires url != [] && NoZero(url)
    ensures NoneForbidden(url) ==> ShortName(url).Made?
    ensures ForbiddenEarly(url) ==> ShortName(url).Illegal?
  {
    hide Doschar, Forbidden, BaseLength, Extension, Upper, Limit;
    forall c: byte ensures Doschar(c) == 1 <==> Forbidden(c) {
      DoscharMeaning(c);
    }
    if ForbiddenEarly(url) {
      var i :| 0 <= i < 6 && i < |url| && Forbidden(url[i]) && DOT !in url[..i];
      var k := RunEnd(url, 0, Limit(url));
      DoscharMeaning(url[i]);
      DoscharMeaning(url[k]);
      DoscharZero(url[k]);
      assert k < i ==> url[k] in url[..i];
    }
    if NoneForbidden(url) {
      ExtensionPart(url);
    }
  }

  lemma ExtensionPart(url: seq<byte>)
    requires url != []
    ensures forall i :: 0 <= i < |ShortExtension(url)| ==> ShortExtension(url)[i] in url
  {
  }

  /** A string of at most eight letters and digits becomes itself in capitals, with a dot when it has eight. */
  lemma ShortNameLetters(url: seq<byte>)
    requires 0 < |url| <= 8 && NoZero(url) && LettersAndDigits(url)
    ensures ShortName(url).Made? && |ShortName(url).s| == if |url| == 8 then 9 else |url|
    ensures forall i :: 0 <= i < |url| ==> ShortName(url).s[i] == Capital(url[i])
    ensures |url| == 8 ==> ShortName(url).s[8] == DOT
  {
    hide Doschar, LetterOrDigit;
    forall i | 0 <= i < |url|
      ensures Doschar(url[i]) == Capital(url[i]) && Doschar(url[i]) > 1 && Doschar(url[i]) != DOT && url[i] != DOT
    {
      DoscharMeaning(url[i]);
    }
    assert BaseLength(url) == |url| && Limit(url) == 8 && ShortExtension(url) == [];
    assert url[..|url|] == url;
  }

  /** A long base of letters and digits with an extension of such: six characters, "~1" and three of the extension. */
  lemma ShortenedName(b: seq<byte>, e: seq<byte>)
    requires |b| > 8 && |e| >= 1 && LettersAndDigits(b) && LettersAndDigits(e) && NoZero(b + [DOT] + e)
    ensures var r, n := ShortName(b + [DOT] + e), if |e| < 3 then |e| else 3;
      && r.Made? && |r.s| == 9 + n && r.s[6..9] == [0x7E, 0x31, DOT]
      && (forall i :: 0 <= i < 6 ==> r.s[i] == Capital(b[i]))
      && (forall i :: 0 <= i < n ==> r.s[9 + i] == Capital(e[i]))
  {
    hide Doschar, LetterOrDigit, Capital, LastDot, BaseLength, Extension, RunEnd;
    var url := b + [DOT] + e;
    forall i | 0 <= i < |b| ensures Doschar(b[i]) == Capital(b[i]) && Doschar(b[i]) > 1 && Doschar(b[i]) != DOT {
      DoscharMeaning(b[i]);
    }
    forall i | 0 <= i < |e| ensures Doschar(e[i]) == Capital(e[i]) && Doschar(e[i]) > 1 && DOT != e[i] {
      DoscharMeaning(e[i]);
      LetterNoDot(e[i]);
    }
    LongParts(b, e);
    assert forall i :: 0 <= i < 6 ==> url[i] == b[i];
    SixKept(url);
    var x := ShortExtension(url);
    assert x == e[..if |e| < 3 then |e| else 3];
    assert 1 !in Upper(x);
    assert ShortName(url) == Made(Upper(url[..6]) + [0x7E, 0x31] + [DOT] + Upper(x));
  }

  lemma LongParts(b: seq<byte>, e: seq<byte>)
    requires b != [] && e != [] && DOT !in e
    ensures var url := b + [DOT] + e; BaseLength(url) == |b| && Extension(url) == e
  {
    var url := b + [DOT] + e;
    assert forall i :: |b| < i < |url| ==> url[i] == e[i - |b| - 1];
    LastDotAt(url, |url| - 2, |b|);
    assert url[|b| + 1..] == e;
  }

  lemma SixKept(url: seq<byte>)
    requires |url| >= 6 && forall i :: 0 <= i < 6 ==> Doschar(url[i]) > 1 && Doschar(url[i]) != DOT
    ensures RunEnd(url, 0, 6) == 6
  {
    hide Doschar;
  }

  lemma LetterNoDot(c: byte)
    ensures LetterOrDigit(c) ==> c != DOT && c != 0
  {
  }

  /** Makes the short name of a non-empty string; it fits the caller's 13 bytes. */
  method StrToFatname(url: seq<byte>, dosname: array<byte>) returns (err: bool)
    requires url != [] && NoZero(url) && dosname.Length >= 13
    modifies dosname
    ensures err <==> ShortName(url).Illegal?
    ensures !err ==> HoldsString(dosname[..], ShortName(url).s)
    ensures dosname[13..] == old(dosname[13..])
    ensures (NoneForbidden(url) ==> !err) && (ForbiddenEarly(url) ==> err)
    ensures |url| <= 8 && LettersAndDigits(url) ==> !err && CapitalsHeld(dosname[..], url)
  {
    hide NoneForbidden, ForbiddenEarly, LettersAndDigits, CapitalsHeld, HoldsString, ShortName;
    err := ShortenName(url, dosname);
    ShortNameFails(url);
    if |url| <= 8 && LettersAndDigits(url) { LettersHeld(url, dosname[..]); }
  }

  /** The string at the front of the buffer begins with the capitals of url. */
  predicate CapitalsHeld(buf: seq<byte>, url: seq<byte>) {
    |url| < |buf| && forall i :: 0 <= i < |url| ==> buf[i] == Capital(url[i])
  }

  lemma LettersHeld(url: seq<byte>, buf: seq<byte>)
    requires 0 < |url| <= 8 && NoZero(url) && LettersAndDigits(url)
    ensures ShortName(url).Made? && (HoldsString(buf, ShortName(url).s) ==> CapitalsHeld(buf, url))
  {
    hide LettersAndDigits, Capital, ShortName;
    ShortNameLetters(url);
    assert HoldsString(buf, ShortName(url).s) ==> forall i :: 0 <= i < |url| ==> buf[..|ShortName(url).s|][i] == buf[i];
  }

  /** The body of str_to_fatname. */
  method ShortenName(url: seq<byte>, dosname: array<byte>) returns (err: bool)
    requires url != [] && NoZero(url) && dosname.Length >= 13
    modifies dosname
    ensures err <==> ShortName(url).Illegal?
    ensures !err ==> HoldsString(dosname[..], ShortName(url).s)
    ensures dosname[13..] == old(dosname[13..])
  {
    hide Doschar, RunEnd, BaseLength, Extension, Upper;
    var nameLen, extension := SplitName(url);
    var limit := if nameLen > 8 || |extension| > 3 then 6 else 8;
    var i, c := CopyRun(url, limit, dosname);
    if c == 1 {
      return true;
    } else if c == 0 {
      return false;
    }
    i := AppendTail(dosname, i, limit == 6);
    ghost var front := dosname[..i];
    err := CopyShortExtension(dosname, i, extension);
    if !err {
      Joined(dosname[..], front, Upper(ShortExtension(url)));
    }
  }

  /** Puts the tail of a shortened name and the dot behind the base. */
  method AppendTail(dosname: array<byte>, i: nat, short: bool) returns (o: nat)
    requires dosname.Length >= 13 && i <= if short then 6 else 8
    modifies dosname
    ensures o <= 9 && dosname[..o] == old(dosname[..i]) + (if short then [0x7E, 0x31] else []) + [DOT]
    ensures dosname[13..] == old(dosname[13..])
  {
    o := i;
    if short {
      dosname[o] := 0x7E;
      dosname[o + 1] := 0x31;
      o := o + 2;
    }
    dosname[o] := DOT;
    o := o + 1;
  }

  lemma Joined(buf: seq<byte>, front: seq<byte>, x: seq<byte>)
    requires |front| + |x| < |buf| && buf[..|front|] == front
    requires buf[|front|..|front| + |x|] == x && buf[|front| + |x|] == 0
    ensures HoldsString(buf, front + x)
  {
  }

  /** Copies the base up to a dot or the limit; c is 1 or 0 when an illegal character or the end comes first. */
  method CopyRun(url: seq<byte>, limit: nat, dosname: array<byte>) returns (i: nat, c: byte)
    requires NoZero(url) && limit <= 8 && dosname.Length >= 13
    modifies dosname
    ensures i == RunEnd(url, 0, limit) && dosname[..i] == Upper(url[..i]) && dosname[13..] == old(dosname[13..])
    ensures c == 1 <==> i < limit && i < |url| && Doschar(url[i]) == 1
    ensures c == 0 <==> i < limit && i == |url|
    ensures c == 0 ==> HoldsString(dosname[..], Upper(url))
  {
    hide Doschar;
    i := 0;
    while i < limit
      invariant i <= limit && i <= |url| && RunEnd(url, 0, limit) == RunEnd(url, i, limit)
      invariant dosname[..i] == Upper(url[..i]) && dosname[13..] == old(dosname[13..])
    {
      dosname[i] := Doschar(At(url, i));
      DoscharZero(At(url, i));
      c := dosname[i];
      if c == 1 || c == 0 || c == DOT {
        assert url[..i] == url <==> i == |url|;
        return;
      }
      i := i + 1;
    }
    return i, DOT;
  }

  method SplitName(url: seq<byte>) returns (nameLen: nat, extension: seq<byte>)
    requires url != []
    ensures nameLen == BaseLength(url) && extension == Extension(url)
    ensures NoZero(url) ==> NoZero(extension)
  {
    nameLen := |url|;
    extension := [];
    if url[|url| - 1] == DOT {
      nameLen := |url| - 1;
    } else {
      var i := |url| - 2;
      while i > 0
        invariant |url| >= 2 ==> 0 <= i <= |url| - 2 && LastDot(url, |url| - 2) == LastDot(url, i)
        invariant |url| == 1 ==> i == -1
      {
        if url[i] == DOT {
          nameLen := i;
          extension := url[i + 1..];
          break;
        }
        i := i - 1;
      }
    }
  }

  /** Copies up to three characters of the extension behind the dot and ends the string. */
  method CopyShortExtension(dosname: array<byte>, o: nat, extension: seq<byte>) returns (err: bool)
    requires dosname.Length >= 13 && o <= 9 && NoZero(extension)
    modifies dosname
    ensures var x := Upper(if |extension| <= 3 then extension else extension[..3]);
      && (err <==> 1 in x) && dosname[..o] == old(dosname[..o]) && dosname[13..] == old(dosname[13..])
      && (!err ==> dosname[o..o + |x|] == x && dosname[o + |x|] == 0)
  {
    hide Doschar;
    ghost var x := if |extension| <= 3 then extension else extension[..3];
    var i, j := o, 0;
    while j < 3
      invariant j <= |x| && i == o + j && dosname[o..i] == Upper(x)[..j] && 1 !in Upper(x)[..j]
      invariant dosname[..o] == old(dosname[..o]) && dosname[13..] == old(dosname[13..])
    {
      dosname[i] := Doschar(At(extension, j));
      DoscharZero(At(extension, j));
      i := i + 1;
      if dosname[i - 1] == 0 {
        break;
      } else if dosname[i - 1] == 1 {
        assert Upper(x)[j] == 1;
        return true;
      }
      j := j + 1;
    }
    dosname[i] := 0;
    assert Upper(x)[..j] == Upper(x);
    return false;
  }

  /** The short name of a plain name is its string; an eight-character name without extension gets a dot. */
  lemma ShortNameOfText(b: seq<byte>, e: seq<byte>)
    requires 1 <= |b| <= 8 && |e| <= 3 && AllPlain(b) && AllPlain(e)
    ensures Text(b, e) != [] && NoZero(Text(b, e))
    ensures ShortName(Text(b, e)) == Made(if e == [] && |b| == 8 then b + [DOT] else Text(b, e))
  {
    hide Doschar, RunEnd, BaseLength, Extension, AllPlain, Upper, LastDot;
    var url := Text(b, e);
    TextParts(b, e);
    PlainUpper(b);
    PlainUpper(e);
    RunOfPlain(url, b, 0);
    assert Limit(url) == 8 && ShortExtension(url) == e && Tail(url) == [];
    if e == [] {
      assert url == b && url[..|b|] == b;
      assert b + [] + [DOT] + [] == b + [DOT];
    } else {
      assert url[..|b|] == b;
      assert b + [] + [DOT] + e == b + [DOT] + e;
      DotIsNotIllegal();
    }
  }

  lemma DotIsNotIllegal()
    ensures Doschar(DOT) == DOT
  {
  }

  lemma PlainUpper(s: seq<byte>)
    requires AllPlain(s)
    ensures Upper(s) == s && 1 !in s && NoZero(s) && DOT !in s
  {
  }

  lemma TextParts(b: seq<byte>, e: seq<byte>)
    requires 1 <= |b| <= 8 && |e| <= 3 && AllPlain(b) && AllPlain(e)
    ensures var url := Text(b, e);
      && url != [] && NoZero(url) && BaseLength(url) == |b| && Extension(url) == e && b <= url
      && (if e == [] then |url| == |b| else |url| > |b| && Doschar(url[|b|]) == DOT)
  {
    hide Doschar, LastDot, AllPlain;
    var url := Text(b, e);
    TextAt(b, e);
    DotIsNotIllegal();
    if |url| >= 2 {
      LastDotAt(url, |url| - 2, if e == [] then 0 else |b|);
    }
    assert e != [] ==> url[|b| + 1..] == e;
  }

  /** The characters of the string of a plain name: only the dot in front of the extension is one. */
  lemma TextAt(b: seq<byte>, e: seq<byte>)
    requires AllPlain(b) && AllPlain(e)
    ensures var url := Text(b, e);
      && b <= url && |url| == |b| + (if e == [] then 0 else 1 + |e|) && NoZero(url)
      && (forall i :: 0 <= i < |url| && i != |b| ==> url[i] != DOT) && (e != [] ==> url[|b|] == DOT)
  {
    hide Doschar;
    var url := Text(b, e);
    forall i | 0 <= i < |url| ensures url[i] != 0 && (i != |b| ==> url[i] != DOT) {
      if i < |b| {
        assert url[i] == b[i] && Plain(b[i]);
      } else if i > |b| {
        assert url[i] == e[i - |b| - 1] && Plain(e[i - |b| - 1]);
      }
    }
  }

  /** The last dot is the one behind which there is none. */
  lemma LastDotAt(url: seq<byte>, n: nat, k: nat)
    requires k <= n < |url| && (k > 0 ==> url[k] == DOT) && forall i :: k < i <= n ==> url[i] != DOT
    ensures LastDot(url, n) == k
  {
  }

  /** A run over a plain base ends behind it. */
  lemma {:induction false} RunOfPlain(url: seq<byte>, b: seq<byte>, j: nat)
    requires j <= |b| <= 8 && b <= url && AllPlain(b)
    requires |url| > |b| ==> Doschar(url[|b|]) == DOT
    ensures RunEnd(url, j, 8) == |b|
    decreases |b| - j
  {
    if j < |b| {
      assert Plain(b[j]) && url[j] == b[j];
      RunOfPlain(url, b, j + 1);
    }
  }

  // ---------------------------------------------------------------- the name a look-up compares

  predicate Ends(path: seq<byte>, p: nat)
    requires p <= |path|
  {
    Doschar(At(path, p)) == 0 || Doschar(At(path, p)) == SLASH
  }

  /** The path element at p is the plain base b, with a dot and the plain extension e behind it if dot is set. */
  ghost predicate Element(path: seq<byte>, p: nat, b: seq<byte>, dot: bool, e: seq<byte>) {
    var s := b + (if dot then [DOT] else []) + e;
    && 1 <= |b| <= 8 && |e| <= 3 && AllPlain(b) && AllPlain(e)
    && (e != [] ==> dot) && (dot && e == [] ==> |b| > 1)
    && p + |s| <= |path| && path[p..p + |s|] == s && Ends(path, p + |s|)
  }

  /** The elements of a path end at a slash, at a backslash or where the path does. */
  lemma PathElement(before: seq<byte>, b: seq<byte>, e: seq<byte>, rest: seq<byte>)
    requires 1 <= |b| <= 8 && 1 <= |e| <= 3 && AllPlain(b) && AllPlain(e)
    requires rest == [] || rest[0] == 0x2F || rest[0] == 0x5C
    ensures Element(before + (b + [DOT] + e) + rest, |before|, b, true, e)
  {
    hide AllPlain, Doschar;
    var s := b + [DOT] + e;
    var path := before + s + rest;
    assert path[|before|..|before| + |s|] == s;
    DoscharMeaning(At(path, |before| + |s|));
    DoscharZero(At(path, |before| + |s|));
  }

  /** What make_dos_name stores for such an element: byte 1 is left as it was for a one-letter base with an
      extension. */
  function Stored(b: seq<byte>, e: seq<byte>, before: byte): (n: seq<byte>)
    requires |b| <= 8 && |e| <= 3
    ensures |n| == 11
  {
    if |b| == 1 && e != [] then Name(b, e)[1 := before] else Name(b, e)
  }

  /** Character i of an element. */
  lemma ElementAt(path: seq<byte>, p: nat, b: seq<byte>, dot: bool, e: seq<byte>, i: nat)
    requires Element(path, p, b, dot, e)
    ensures i < |b| ==> p + i < |path| && Doschar(At(path, p + i)) == b[i] && Plain(b[i])
    ensures dot ==> p + |b| < |path| && Doschar(At(path, p + |b|)) == DOT
    ensures dot && i < |e| ==>
      && p + |b| + 1 + i < |path| && At(path, p + |b| + 1 + i) == e[i]
      && Doschar(At(path, p + |b| + 1 + i)) == e[i] && Plain(e[i])
    ensures var n := |b| + (if dot then 1 else 0) + |e|; p + n <= |path| && Ends(path, p + n)
  {
    var s := b + (if dot then [DOT] else []) + e;
    assert path[p..p + |s|] == s;
    hide Doschar, AllPlain;
    assert i < |b| ==> s[i] == b[i] && path[p + i] == s[i];
    assert dot ==> s[|b|] == DOT && path[p + |b|] == s[|b|];
    assert dot && i < |e| ==> s[|b| + 1 + i] == e[i] && path[p + |b| + 1 + i] == s[|b| + 1 + i];
    PlainHere(b, i);
    PlainHere(e, i);
  }

  lemma PlainHere(s: seq<byte>, i: nat)
    requires AllPlain(s)
    ensures i < |s| ==> Plain(s[i])
    ensures Doschar(DOT) == DOT
  {
  }

  lemma StoredAt(b: seq<byte>, e: seq<byte>, before: byte, k: nat)
    requires |b| <= 8 && |e| <= 3 && k < 11
    ensures Stored(b, e, before)[k] ==
      if k == 1 && |b| == 1 && e != [] then before
      else if k < |b| then b[k] else if k < 8 then SPACE else if k < 8 + |e| then e[k - 8] else SPACE
  {
  }

  /** The first eight bytes of the name; c is the first character that has not been used, pp points behind it. */
  method MakeBase(dosname: array<byte>, path: seq<byte>, p: nat, ghost b: seq<byte>, ghost dot: bool,
      ghost e: seq<byte>)
    returns (err: bool, c: byte, pp: nat)
    requires dosname.Length >= 12 && p <= |path|
    modifies dosname
    ensures p < pp <= |path| + 1 && (!err ==> c == Doschar(At(path, pp - 1)) && dosname[0] != 0 && dosname[0] != 0xE5)
    ensures Element(path, p, b, dot, e) ==>
      && !err && pp == p + |b| + 1
      && forall k :: 0 <= k < 8 ==> dosname[k] == Stored(b, e, old(dosname[1]))[k]
  {
    hide Doschar, Stored, Element;
    ghost var element := Element(path, p, b, dot, e);
    if element {
      ElementShape(path, p, b, dot, e);
      ElementAt(path, p, b, dot, e, 0);
    }
    c := Doschar(At(path, p));
    pp := p + 1;
    var i := 0;
    while i < 8
      invariant i <= 8 && p < pp <= |path| + 1 && c == Doschar(At(path, pp - 1))
      invariant element ==> pp == p + (if i <= |b| then i else |b|) + 1
      invariant element ==> forall k :: 0 <= k < i ==> dosname[k] == Stored(b, e, old(dosname[1]))[k]
      invariant i <= 1 ==> dosname[1] == old(dosname[1])
      invariant i > 0 ==> dosname[0] != 0 && dosname[0] != 0xE5
    {
      DoscharZero(At(path, pp - 1));
      if element {
        ElementAt(path, p, b, dot, e, i);
        ElementAt(path, p, b, dot, e, i + 1);
        ElementAt(path, p, b, dot, e, 0);
        StoredAt(b, e, old(dosname[1]), i);
      }
      if c == SLASH || c == 0 {
        dosname[i] := SPACE;
      } else if c == DOT {
        if i == 0 {
          dosname[i] := DOT;
          c, pp := Doschar(At(path, pp)), pp + 1;
        } else if i == 1 {
          if At(path, pp) == 0 || Doschar(At(path, pp)) == SLASH {
            dosname[i] := DOT;
            c, pp := Doschar(At(path, pp)), pp + 1;
          }
        } else {
          dosname[i] := SPACE;
        }
      } else if c == 1 {
        return true, c, pp;
      } else {
        dosname[i] := c;
        c, pp := Doschar(At(path, pp)), pp + 1;
      }
      i := i + 1;
    }
    err := false;
  }

  lemma ElementShape(path: seq<byte>, p: nat, b: seq<byte>, dot: bool, e: seq<byte>)
    requires Element(path, p, b, dot, e)
    ensures 1 <= |b| <= 8 && |e| <= 3 && (e != [] ==> dot) && (dot && e == [] ==> |b| > 1)
  {
  }

  /** The last three bytes of the name. */
  method MakeExtension(dosname: array<byte>, path: seq<byte>, c0: byte, pp0: nat, extFollows: bool,
                       ghost p: nat, ghost b: seq<byte>, ghost dot: bool, ghost e: seq<byte>)
    returns (err: bool, c: byte, pp: nat)
    requires dosname.Length >= 12 && 0 < pp0 <= |path| + 1 && c0 == Doschar(At(path, pp0 - 1))
    requires Element(path, p, b, dot, e) ==> extFollows == dot && pp0 == p + |b| + (if dot then 2 else 1)
    modifies dosname
    ensures dosname[..8] == old(dosname[..8])
    ensures pp0 <= pp <= |path| + 1 && (!err ==> c == Doschar(At(path, pp - 1)))
    ensures Element(path, p, b, dot, e) ==>
      && !err && pp == pp0 + |e|
      && forall k :: 8 <= k < 11 ==> dosname[k] == Stored(b, e, old(dosname[1]))[k]
  {
    hide Doschar, Stored, Element;
    ghost var element := Element(path, p, b, dot, e);
    if element {
      ElementShape(path, p, b, dot, e);
    }
    c, pp := c0, pp0;
    var i := 0;
    while i < 3
      invariant i <= 3 && pp0 <= pp <= |path| + 1 && c == Doschar(At(path, pp - 1))
      invariant dosname[..8] == old(dosname[..8])
      invariant element ==> pp == pp0 + (if i <= |e| then i else |e|)
      invariant element ==> forall k :: 8 <= k < 8 + i ==> dosname[k] == Stored(b, e, old(dosname[1]))[k]
    {
      DoscharZero(At(path, pp - 1));
      if element {
        ElementAt(path, p, b, dot, e, i);
        StoredAt(b, e, old(dosname[1]), 8 + i);
      }
      if extFollows {
        if c == SLASH || c == 0 {
          dosname[8 + i] := SPACE;
        } else if c == 1 {
          return true, c, pp;
        } else if c == DOT {
          return true, c, pp;
        } else {
          dosname[8 + i] := c;
          c, pp := Doschar(At(path, pp)), pp + 1;
        }
      } else {
        dosname[8 + i] := SPACE;
      }
      i := i + 1;
    }
    err := false;
  }

  /**
   Stores the eleven bytes of the path element at p, and says where the element ends. A plain
   element gives its name, but a one-letter base with an extension leaves byte 1 unset.
   */
  method MakeDosName(dosname: array<byte>, path: seq<byte>, p: nat, ghost b: seq<byte>, ghost dot: bool,
      ghost e: seq<byte>)
    returns (err: bool, pp: nat)
    requires dosname.Length >= 12 && p <= |path|
    modifies dosname
    ensures !err ==> p <= pp <= |path| && Ends(path, pp) && dosname[0] != 0 && dosname[0] != 0xE5
    ensures Element(path, p, b, dot, e) ==>
      && !err && pp == p + |b| + (if dot then 1 else 0) + |e| && dosname[..11] == Stored(b, e, old(dosname[1]))
  {
    hide Doschar, Stored, Element;
    ghost var element := Element(path, p, b, dot, e);
    if element {
      ElementShape(path, p, b, dot, e);
      ElementAt(path, p, b, dot, e, 0);
    }
    dosname[11] := 0;
    ghost var before := dosname[1];
    var c; ghost var base;
    err, c, pp := MakeBase(dosname, path, p, b, dot, e);
    if err {
      return;
    }
    DoscharZero(At(path, pp - 1));
    var extFollows := false;
    if c == DOT {
      extFollows := true;
      c, pp := Doschar(At(path, pp)), pp + 1;
    } else if !(c == SLASH || c == 0) {
      c, pp := Doschar(At(path, pp)), pp + 1;
      DoscharZero(At(path, pp - 1));
      if c == DOT {
        extFollows := true;
        c, pp := Doschar(At(path, pp)), pp + 1;
      } else if !(c == SLASH || c == 0) {
        return true, pp;
      }
    }
    base := dosname[..8];
    if element {
      StoredPrefix(b, e, before, dosname[1]);
    }
    err, c, pp := MakeExtension(dosname, path, c, pp, extFollows, p, b, dot, e);
    if err {
      return;
    }
    if element {
      assert forall k :: 0 <= k < 8 ==> dosname[..8][k] == base[k];
    }
    pp := pp - 1;
    err := !(c == SLASH || c == 0);
  }

  lemma StoredPrefix(b: seq<byte>, e: seq<byte>, x: byte, y: byte)
    requires |b| <= 8 && |e| <= 3
    ensures forall k :: 8 <= k < 11 ==> Stored(b, e, x)[k] == Stored(b, e, y)[k]
  {
  }

  // ---------------------------------------------------------------- reading a name and looking it up

  /** What str_to_fatname makes of the string of a plain name is an element for make_dos_name. */
  lemma ShortNameIsElement(b: seq<byte>, e: seq<byte>)
    requires 1 <= |b| <= 8 && |e| <= 3 && AllPlain(b) && AllPlain(e)
    ensures Text(b, e) != [] && NoZero(Text(b, e)) && ShortName(Text(b, e)).Made?
    ensures Element(ShortName(Text(b, e)).s, 0, b, e != [] || |b| == 8, e)
  {
    ShortNameOfText(b, e);
    hide Doschar, ShortName, AllPlain;
    var s := ShortName(Text(b, e)).s;
    DoscharZero(0);
    assert s == b + (if e != [] || |b| == 8 then [DOT] else []) + e;
    assert s[0..|s|] == s;
  }

  /** What make_dos_name stores is the name, but for byte 1 when the base has one letter and there is an extension. */
  lemma RoundTripExact(b: seq<byte>, e: seq<byte>, x: byte)
    requires 1 <= |b| <= 8 && |e| <= 3 && AllPlain(b) && AllPlain(e)
    ensures forall k :: 0 <= k < 11 && k != 1 ==> Stored(b, e, x)[k] == Name(b, e)[k]
    ensures |b| == 1 && e != [] ==> Stored(b, e, x)[1] == x
    ensures Stored(b, e, x) == Name(b, e) <==> !(|b| == 1 && e != []) || x == SPACE
  {
    if |b| == 1 && e != [] {
      assert Stored(b, e, x)[1] == x && Name(b, e)[1] == SPACE;
    }
  }

  /**
   The first step of a path look-up: the short name of a path element, then its eleven bytes. For
   the string that a directory entry with a plain name reads as, it gives back the name, unless the base has
   one letter and there is an extension: then byte 1 is not set, and has to be a space already.
   */
  method LookupName(dosname: array<byte>, element: seq<byte>, ghost b: seq<byte>, ghost e: seq<byte>)
    returns (err: bool)
    requires dosname.Length >= 12 && element != [] && NoZero(element)
    requires 1 <= |b| <= 8 && |e| <= 3 && AllPlain(b) && AllPlain(e)
    modifies dosname
    ensures element == ToString(Name(b, e)) ==>
      && !err
      && (forall k :: 0 <= k < 11 && k != 1 ==> dosname[k] == Name(b, e)[k])
      && (|b| == 1 && e != [] ==> dosname[1] == old(dosname[1]))
      && (dosname[..11] == Name(b, e) <==> |b| != 1 || e == [] || old(dosname[1]) == SPACE)
  {
    hide Doschar, ShortName, AllPlain, Element, Stored, ToString, Name;
    RoundTripExact(b, e, dosname[1]);
    StringOfName(b, e);
    ShortNameIsElement(b, e);
    var dosname2 := new byte[13];
    ghost var before := dosname[1];
    err := StrToFatname(element, dosname2);
    if err {
      return;
    }
    ShortNameNoZero(element);
    var path := ReadString(dosname2, ShortName(element).s);
    var pathPointer;
    err, pathPointer := MakeDosName(dosname, path, 0, b, e != [] || |b| == 8, e);
  }

  lemma ShortNameNoZero(url: seq<byte>)
    requires url != [] && NoZero(url) && ShortName(url).Made?
    ensures NoZero(ShortName(url).s)
  {
    hide Doschar, RunEnd, BaseLength;
    forall i | 0 <= i < |url| ensures Doschar(url[i]) != 0 {
      DoscharZero(url[i]);
    }
    assert NoZero(Upper(url));
    assert forall k :: 0 <= k < |Extension(url)| ==> Extension(url)[k] in url;
    assert NoZero(Upper(ShortExtension(url)));
  }

  /** The string at the front of a buffer. */
  method ReadString(buf: array<byte>, ghost s: seq<byte>) returns (r: seq<byte>)
    requires HoldsString(buf[..], s) && NoZero(s)
    ensures r == s
  {
    var i := 0;
    while buf[i] != 0
      invariant i <= |s| && i < buf.Length && buf[..i] == s[..i]
      decreases |s| - i
    {
      assert i < |s|;
      i := i + 1;
    }
    r := buf[..i];
  }
}
