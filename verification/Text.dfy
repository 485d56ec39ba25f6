/** Byte values and the ASCII string functions that the relay takes from Go's `strings` package. */
module Text {

  type byte = x: int | 0 <= x < 0x100

  datatype Option<+T> = None | Some(value: T)

  function LowerChar(c: char): char {
    if 'A' <= c <= 'Z' then (c as int + 32) as char else c
  }

  function ToLower(s: string): string {
    seq(|s|, i requires 0 <= i < |s| => LowerChar(s[i]))
  }

  /** Case-insensitive equality, `strings.EqualFold` on ASCII. */
  predicate EqualFold(a: string, b: string) {
    ToLower(a) == ToLower(b)
  }

  predicate IsSpace(c: char) {
    c == ' ' || 9 <= c as int <= 13
  }

  function TrimLeft(s: string): string {
    if s != "" && IsSpace(s[0]) then TrimLeft(s[1..]) else s
  }

  function TrimRight(s: string): string {
    if s != "" && IsSpace(s[|s| - 1]) then TrimRight(s[..|s| - 1]) else s
  }

  function TrimSpace(s: string): string {
    TrimRight(TrimLeft(s))
  }

  /** No white space at either end. */
  predicate Trimmed(s: string) {
    s != "" ==> !IsSpace(s[0]) && !IsSpace(s[|s| - 1])
  }

  lemma {:induction false} TrimRightPrefix(s: string)
    ensures TrimRight(s) <= s
    ensures TrimRight(s) != "" ==> !IsSpace(TrimRight(s)[|TrimRight(s)| - 1])
  {
    if s != "" && IsSpace(s[|s| - 1]) {
      TrimRightPrefix(s[..|s| - 1]);
    }
  }

  lemma {:induction false} TrimLeftSuffix(s: string)
    ensures |TrimLeft(s)| <= |s| && TrimLeft(s) == s[|s| - |TrimLeft(s)|..]
    ensures TrimLeft(s) != "" ==> !IsSpace(TrimLeft(s)[0])
  {
    if s != "" && IsSpace(s[0]) {
      TrimLeftSuffix(s[1..]);
    }
  }

  /** Trimming leaves no white space at the ends, brings in no character, and changes nothing when there is none. */
  lemma TrimSpaceFacts(s: string)
    ensures Trimmed(TrimSpace(s))
    ensures forall c :: c in TrimSpace(s) ==> c in s
    ensures Trimmed(s) ==> TrimSpace(s) == s
  {
    TrimLeftSuffix(s);
    TrimRightPrefix(TrimLeft(s));
  }

  predicate Blank(s: string) {
    forall i :: 0 <= i < |s| ==> IsSpace(s[i])
  }

  lemma {:induction false} TrimLeftPadded(ws: string, s: string)
    requires Blank(ws)
    ensures TrimLeft(ws + s) == TrimLeft(s)
  {
    if ws == "" {
      assert ws + s == s;
    } else {
      assert (ws + s)[1..] == ws[1..] + s;
      TrimLeftPadded(ws[1..], s);
    }
  }

  lemma {:induction false} TrimRightPadded(s: string, ws: string)
    requires Blank(ws)
    ensures TrimRight(s + ws) == TrimRight(s)
  {
    if ws == "" {
      assert s + ws == s;
    } else {
      assert (s + ws)[..|s + ws| - 1] == s + ws[..|ws| - 1];
      TrimRightPadded(s, ws[..|ws| - 1]);
    }
  }

  /** Trimming on one side does not look beyond the first character that is not white space. */
  lemma {:induction false} TrimLeftThrough(s: string, t: string)
    requires !Blank(s)
    ensures TrimLeft(s + t) == TrimLeft(s) + t
  {
    if IsSpace(s[0]) {
      assert (s + t)[1..] == s[1..] + t;
      TrimLeftThrough(s[1..], t);
    }
  }

  lemma {:induction false} TrimRightThrough(s: string, t: string)
    requires !Blank(t)
    ensures TrimRight(s + t) == s + TrimRight(t)
  {
    if IsSpace(t[|t| - 1]) {
      assert (s + t)[..|s + t| - 1] == s + t[..|t| - 1];
      TrimRightThrough(s, t[..|t| - 1]);
    }
  }

  lemma TrimBlank(s: string)
    requires Blank(s)
    ensures TrimSpace(s) == ""
  {
    TrimLeftPadded(s, "");
    assert s + "" == s;
  }

  /** White space around a string makes no difference once it is trimmed. */
  lemma TrimSpacePadded(ws1: string, s: string, ws2: string)
    requires Blank(ws1) && Blank(ws2)
    ensures TrimSpace(ws1 + s + ws2) == TrimSpace(s)
  {
    if Blank(s) {
      TrimBlank(s);
      TrimBlank(ws1 + s + ws2);
    } else {
      assert ws1 + s + ws2 == ws1 + (s + ws2);
      TrimLeftPadded(ws1, s + ws2);
      TrimLeftThrough(s, ws2);
      TrimRightPadded(TrimLeft(s), ws2);
    }
  }

  /** One-sided trimming is absorbed by trimming on both. */
  lemma TrimAbsorbsLeft(s: string)
    ensures TrimSpace(TrimLeft(s)) == TrimSpace(s)
  {
    TrimLeftSuffix(s);
  }

  lemma TrimAbsorbsRight(s: string)
    ensures TrimSpace(TrimRight(s)) == TrimSpace(s)
  {
    var t := TrimRight(s);
    var ws := CutRight(s);
    assert "" + t + ws == s;
    TrimSpacePadded("", t, ws);
  }

  lemma {:induction false} CutRight(s: string) returns (ws: string)
    ensures Blank(ws) && s == TrimRight(s) + ws
  {
    ws := "";
    if s != "" && IsSpace(s[|s| - 1]) {
      var rest := CutRight(s[..|s| - 1]);
      ws := rest + [s[|s| - 1]];
    }
  }

  lemma {:induction false} TrimRightStops(s: string, i: nat)
    requires i < |s| && !IsSpace(s[i])
    ensures i < |TrimRight(s)|
  {
    if IsSpace(s[|s| - 1]) {
      TrimRightStops(s[..|s| - 1], i);
    }
  }

  const UPPER := "ABCDEFGHIJKLMNOPQRSTUVWXYZ"
  const LOWER := "abcdefghijklmnopqrstuvwxyz"

  /** Each letter A-Z becomes its lower-case letter, and nothing else changes. */
  lemma ToLowerMeaning(s: string, i: nat)
    requires i < |s|
    ensures |ToLower(s)| == |s|
    ensures forall k :: 0 <= k < 26 && s[i] == UPPER[k] ==> ToLower(s)[i] == LOWER[k]
    ensures s[i] !in UPPER ==> ToLower(s)[i] == s[i]
  {
    forall k | 0 <= k < 26 ensures UPPER[k] as int == 'A' as int + k && LOWER[k] as int == 'a' as int + k {
      UpperInOrder(k);
      LowerInOrder(k);
    }
    if 'A' <= s[i] <= 'Z' {
      assert UPPER[s[i] as int - 'A' as int] == s[i];
    }
  }

  lemma UpperInOrder(k: nat)
    requires k < 26
    ensures UPPER[k] as int == 'A' as int + k
  {
  }

  lemma LowerInOrder(k: nat)
    requires k < 26
    ensures LOWER[k] as int == 'a' as int + k
  {
  }

  /** White space is tab, line feed, vertical tab, form feed, carriage return and blank. */
  lemma WhiteSpace(c: char)
    ensures IsSpace(c) <==> c in "\t\n\U{0b}\U{0c}\r "
  {
  }

  lemma ToLowerFacts(s: string)
    ensures ToLower(ToLower(s)) == ToLower(s)
    ensures Trimmed(s) ==> Trimmed(ToLower(s))
    ensures forall c :: c in ToLower(s) && !('a' <= c <= 'z') ==> c in s
  {
    assert ToLower(ToLower(s)) == ToLower(s);
    forall c | c in ToLower(s) && !('a' <= c <= 'z') ensures c in s {
      var i :| 0 <= i < |s| && ToLower(s)[i] == c;
      assert s[i] == c;
    }
  }
}
