/** Escape sequences in strings, undone in place when a string is written to bytecode. */
module Strings {
  import opened Words
  import opened Wrappers

  /** Why the writer ends the process. */
  datatype DumpError = Unterminated | UnknownEscape(c: u8)

  const BACKSLASH: u8 := 92

  /** The character an escape stands for: n, r, t, a and the backslash itself. */
  function EscapeOf(c: u8): Option<u8> {
    if c == 110 then Some(10)
    else if c == 114 then Some(13)
    else if c == 116 then Some(9)
    else if c == 97 then Some(7)
    else if c == BACKSLASH then Some(BACKSLASH)
    else None
  }

  /** An escape is a backslash and one of these five letters. */
  lemma EscapesExactly(c: u8, v: u8)
    ensures EscapeOf(c) == Some(v) <==>
            || (c == 'n' as int && v == '\n' as int)
            || (c == 'r' as int && v == '\r' as int)
            || (c == 't' as int && v == '\t' as int)
            || (c == 'a' as int && v == 7)
            || (c == '\\' as int && v == '\\' as int)
  {
  }

  function Prepend(p: seq<u8>, r: Result<seq<u8>, DumpError>): Result<seq<u8>, DumpError> {
    match r
    case Failure(e) => Failure(e)
    case Success(t) => Success(p + t)
  }

  /** One pass over the string; what an escape produced is never looked at again. */
  function Unescape(s: seq<u8>): (r: Result<seq<u8>, DumpError>)
    ensures r.Success? ==> |r.value| <= |s| && (s != [] ==> r.value != [])
    ensures r.Success? && 0 !in s ==> 0 !in r.value
  {
    if s == [] then Success([])
    else if s[0] != BACKSLASH then Prepend([s[0]], Unescape(s[1..]))
    else if |s| == 1 then Failure(Unterminated)
    else
      match EscapeOf(s[1])
      case None => Failure(UnknownEscape(s[1]))
      case Some(c) => Prepend([c], Unescape(s[2..]))
  }

  /** Position `i` holds a backslash that begins an escape, rather than one that ends it. */
  predicate Opens(s: seq<u8>, i: nat)
    requires i < |s|
  {
    s[i] == BACKSLASH && (i == 0 || !Opens(s, i - 1))
  }

  predicate BadEscapeAt(s: seq<u8>, i: nat)
    requires i < |s|
  {
    Opens(s, i) && (i + 1 == |s| || EscapeOf(s[i + 1]).None?)
  }

  lemma {:induction false} OpensDrop(s: seq<u8>, n: nat, i: nat)
    requires n <= i < |s| && (n == 0 || !Opens(s, n - 1))
    ensures Opens(s, i) == Opens(s[n..], i - n)
  {
    if i > n {
      OpensDrop(s, n, i - 1);
    }
  }

  /** The pass fails exactly when some escape is unfinished or unknown. */
  lemma {:induction false} UnescapeFailsExactly(s: seq<u8>)
    ensures Unescape(s).Failure? <==> exists i :: 0 <= i < |s| && BadEscapeAt(s, i)
  {
    if s != [] {
      var n := if s[0] != BACKSLASH then 1 else 2;
      if n <= |s| {
        UnescapeFailsExactly(s[n..]);
        if n == 2 {
          assert Opens(s, 0) && !Opens(s, 1);
        }
        forall i | n <= i < |s| ensures BadEscapeAt(s, i) == BadEscapeAt(s[n..], i - n) {
          OpensDrop(s, n, i);
        }
        if exists j :: 0 <= j < |s[n..]| && BadEscapeAt(s[n..], j) {
          var j :| 0 <= j < |s[n..]| && BadEscapeAt(s[n..], j);
          assert BadEscapeAt(s, n + j);
        }
        if exists i :: 0 <= i < |s| && BadEscapeAt(s, i) {
          var i :| 0 <= i < |s| && BadEscapeAt(s, i);
          if i >= n {
            assert BadEscapeAt(s[n..], i - n);
          }
        }
      }
      if Opens(s, 0) && (|s| == 1 || EscapeOf(s[1]).None?) {
        assert BadEscapeAt(s, 0);
      }
    }
  }

  /** The letter that stands for a character in an escape. */
  function LetterFor(c: u8): Option<u8> {
    match c
    case 7 => Some(97)
    case 9 => Some(116)
    case 10 => Some(110)
    case 13 => Some(114)
    case 92 => Some(92)
    case _ => None
  }

  function EscapedChar(c: u8): seq<u8> {
    match LetterFor(c)
    case None => [c]
    case Some(l) => [BACKSLASH, l]
  }

  /** A text with every character that has an escape written as one. */
  function Escaped(t: seq<u8>): seq<u8> {
    if t == [] then [] else EscapedChar(t[0]) + Escaped(t[1..])
  }

  lemma UnescapeOne(c: u8, s: seq<u8>)
    ensures Unescape(EscapedChar(c) + s) == Prepend([c], Unescape(s))
  {
    var all := EscapedChar(c) + s;
    if LetterFor(c).Some? {
      assert all[2..] == s;
    } else {
      assert all[1..] == s;
    }
  }

  /** Every text can be written so that unescaping gives it back; in particular a backslash that an
      escape produced, followed by `n`, stays a backslash followed by `n`. */
  lemma {:induction false} UnescapeEscaped(t: seq<u8>)
    ensures Unescape(Escaped(t)) == Success(t)
  {
    hide Unescape;
    if t == [] {
      UnescapeNothing();
    } else {
      UnescapeEscaped(t[1..]);
      UnescapeOne(t[0], Escaped(t[1..]));
      assert [t[0]] + t[1..] == t;
    }
  }

  /** Behind a well-escaped text a lone backslash is unfinished, and one before any other character is
      unknown, whatever follows. */
  lemma {:induction false} UnescapeErrors(t: seq<u8>, c: u8, s: seq<u8>)
    requires EscapeOf(c).None?
    ensures Unescape(Escaped(t) + [BACKSLASH]) == Failure(Unterminated)
    ensures Unescape(Escaped(t) + ([BACKSLASH, c] + s)) == Failure(UnknownEscape(c))
  {
    if t == [] {
      assert [] + [BACKSLASH] == [BACKSLASH] && [] + ([BACKSLASH, c] + s) == [BACKSLASH, c] + s;
    } else {
      UnescapeErrors(t[1..], c, s);
      UnescapeOne(t[0], Escaped(t[1..]) + [BACKSLASH]);
      UnescapeOne(t[0], Escaped(t[1..]) + ([BACKSLASH, c] + s));
      assert Escaped(t) + [BACKSLASH] == EscapedChar(t[0]) + (Escaped(t[1..]) + [BACKSLASH]);
      assert Escaped(t) + ([BACKSLASH, c] + s) == EscapedChar(t[0]) + (Escaped(t[1..]) + ([BACKSLASH, c] + s));
    }
  }

  lemma UnescapeNothing()
    ensures Unescape([]) == Success([])
  {
  }

  lemma {:induction false} UnescapePlain(p: seq<u8>, s: seq<u8>)
    requires BACKSLASH !in p
    ensures Unescape(p + s) == Prepend(p, Unescape(s))
  {
    if p == [] {
      assert p + s == s;
      assert forall t: seq<u8> :: [] + t == t;
    } else {
      assert (p + s)[1..] == p[1..] + s;
      UnescapePlain(p[1..], s);
      assert forall t: seq<u8> :: p + t == [p[0]] + (p[1..] + t);
    }
  }

  lemma {:induction false} UnescapeShortens(s: seq<u8>)
    requires BACKSLASH in s && Unescape(s).Success?
    ensures |Unescape(s).value| < |s|
  {
    if s[0] != BACKSLASH {
      UnescapeShortens(s[1..]);
    }
  }

  /** A string survives being unescaped a second time exactly when no backslash is left in it. */
  lemma UnescapeFixpoint(s: seq<u8>)
    ensures Unescape(s) == Success(s) <==> BACKSLASH !in s
  {
    if BACKSLASH !in s {
      UnescapePlain(s, []);
      assert s + [] == s;
    } else if Unescape(s).Success? {
      UnescapeShortens(s);
    }
  }

  /** A NUL-terminated string of `len` characters at the start of the buffer. */
  predicate IsCString(buf: array<u8>, len: nat)
    reads buf
  {
    len < buf.Length && buf[len] == 0 && forall i :: 0 <= i < len ==> buf[i] != 0
  }

  /** strchr: the first `c` at or after `from`, or -1. */
  method StrChr(buf: array<u8>, from: nat, c: u8, ghost len: nat) returns (r: int)
    requires IsCString(buf, len) && from <= len && c != 0
    ensures r == -1 ==> forall k :: from <= k < len ==> buf[k] != c
    ensures r != -1 ==> from <= r < len && buf[r] == c && forall k :: from <= k < r ==> buf[k] != c
  {
    var i := from;
    while buf[i] != 0
      invariant from <= i <= len && forall k :: from <= k < i ==> buf[k] != c
      decreases len - i
    {
      if buf[i] == c {
        return i;
      }
      i := i + 1;
    }
    return -1;
  }

  /** `strcpy(str + i, str + i + 1)`: the rest of the string moves one place to the left. */
  method ShiftLeft(buf: array<u8>, i: nat, ghost len: nat)
    requires IsCString(buf, len) && i < len
    modifies buf
    ensures IsCString(buf, len - 1)
    ensures buf[..len - 1] == old(buf[..i]) + old(buf[i + 1..len])
  {
    var j := i;
    while buf[j + 1] != 0
      invariant i <= j < len
      invariant forall k :: 0 <= k < i ==> buf[k] == old(buf[k])
      invariant forall k :: i <= k < j ==> buf[k] == old(buf[k + 1])
      invariant forall k :: j < k <= len ==> buf[k] == old(buf[k])
      decreases len - j
    {
      buf[j] := buf[j + 1];
      j := j + 1;
    }
    buf[j] := 0;
  }

  /** The escape at `i` becomes the one character it stands for. */
  method Squeeze(buf: array<u8>, i: nat, c: u8, ghost len: nat)
    requires IsCString(buf, len) && i + 1 < len && c != 0
    modifies buf
    ensures IsCString(buf, len - 1)
    ensures buf[..len - 1] == old(buf[..i]) + [c] + old(buf[i + 2..len])
  {
    buf[i + 1] := c;
    ShiftLeft(buf, i, len);
  }

  /** Where the loop below stands: of the string `s` in the buffer the part before `pos` is final,
      and unescaping the rest completes it to `goal`. */
  predicate Standing(goal: Result<seq<u8>, DumpError>, s: seq<u8>, pos: nat) {
    pos <= |s| && goal == Prepend(s[..pos], Unescape(s[pos..]))
  }

  lemma StandingStart(s: seq<u8>)
    ensures Standing(Unescape(s), s, 0)
  {
    assert s[0..] == s;
    assert forall t: seq<u8> :: [] + t == t;
  }

  lemma StandingEnd(goal: Result<seq<u8>, DumpError>, s: seq<u8>)
    requires Standing(goal, s, |s|)
    ensures goal == Success(s)
  {
    assert s[..|s|] + [] == s;
  }

  lemma PrependTwice(p: seq<u8>, q: seq<u8>, r: Result<seq<u8>, DumpError>)
    ensures Prepend(p, Prepend(q, r)) == Prepend(p + q, r)
  {
    if r.Success? {
      assert p + (q + r.value) == (p + q) + r.value;
    }
  }

  lemma StandingSkip(goal: Result<seq<u8>, DumpError>, s: seq<u8>, from: nat, to: nat)
    requires Standing(goal, s, from) && from <= to <= |s| && forall k :: from <= k < to ==> s[k] != BACKSLASH
    ensures Standing(goal, s, to)
  {
    hide Unescape;
    assert s[from..] == s[from..to] + s[to..];
    UnescapePlain(s[from..to], s[to..]);
    PrependTwice(s[..from], s[from..to], Unescape(s[to..]));
    assert s[..from] + s[from..to] == s[..to];
  }

  lemma StandingTurn(goal: Result<seq<u8>, DumpError>, s: seq<u8>, i: nat, s': seq<u8>)
    requires Standing(goal, s, i) && i < |s| && s[i] == BACKSLASH
    ensures i + 1 == |s| ==> goal == Failure(Unterminated)
    ensures i + 1 < |s| && EscapeOf(s[i + 1]).None? ==> goal == Failure(UnknownEscape(s[i + 1]))
    ensures i + 1 < |s| && EscapeOf(s[i + 1]).Some? && s' == s[..i] + [EscapeOf(s[i + 1]).value] + s[i + 2..] ==>
              Standing(goal, s', i + 1)
  {
    if i + 1 < |s| && EscapeOf(s[i + 1]).Some? && s' == s[..i] + [EscapeOf(s[i + 1]).value] + s[i + 2..] {
      var c := EscapeOf(s[i + 1]).value;
      assert s[i..][2..] == s[i + 2..] == s'[i + 1..];
      assert s'[..i + 1] == s[..i] + [c];
      assert forall t: seq<u8> :: s[..i] + ([c] + t) == (s[..i] + [c]) + t;
    }
  }

  /** The loop of DumpString. On success the buffer holds the unescaped text and its NUL, and the
      result is the number of bytes to write. */
  method UnescapeInPlace(str: array<u8>, len: nat) returns (r: Result<nat, DumpError>)
    requires IsCString(str, len)
    modifies str
    ensures match Unescape(old(str[..len]))
            case Failure(e) => r == Failure(e)
            case Success(t) => r == Success(|t| + 1) && |t| <= len && str[..|t| + 1] == t + [0]
  {
    hide Unescape, Standing;
    ghost var goal := Unescape(str[..len]);
    StandingStart(str[..len]);
    var size := len + 1;
    var pch := StrChr(str, 0, BACKSLASH, len);
    StandingSkip(goal, str[..len], 0, if pch == -1 then len else pch);
    while pch != -1
      invariant 1 <= size <= len + 1 && IsCString(str, size - 1)
      invariant pch != -1 ==> 0 <= pch < size - 1 && str[pch] == BACKSLASH
      invariant Standing(goal, str[..size - 1], if pch == -1 then size - 1 else pch)
      decreases size
    {
      var i := pch;
      ghost var s := str[..size - 1];
      var c := str[pch + 1];
      size := size - 1;
      if i + 1 >= size {
        StandingTurn(goal, s, i, s);
        return Failure(Unterminated);
      }
      var escape := EscapeOf(c);
      if escape.None? {
        StandingTurn(goal, s, i, s);
        return Failure(UnknownEscape(c));
      }
      Squeeze(str, i, escape.value, size);
      StandingTurn(goal, s, i, str[..size - 1]);
      pch := StrChr(str, i + 1, BACKSLASH, size - 1);
      StandingSkip(goal, str[..size - 1], i + 1, if pch == -1 then size - 1 else pch);
    }
    StandingEnd(goal, str[..size - 1]);
    return Success(size);
  }
}
