/**
 * The two string operations the company checks rely on: `String.prototype.trim`
 * and `String.prototype.toLowerCase`.
 */
module Texto {

  /**
   * The code points `trim` removes: ECMAScript's WhiteSpace (tab, vertical tab,
   * form feed, space, no-break space, the byte order mark and the Zs category)
   * and LineTerminator (line feed, carriage return, line and paragraph separator).
   */
  predicate EsBlanco(c: char)
  {
    || c == '\t' || c == '\n' || c == '\U{000B}' || c == '\U{000C}' || c == '\r'
    || c == ' ' || c == '\U{00A0}' || c == '\U{1680}'
    || ('\U{2000}' <= c <= '\U{200A}')
    || c == '\U{2028}' || c == '\U{2029}' || c == '\U{202F}' || c == '\U{205F}'
    || c == '\U{3000}' || c == '\U{FEFF}'
  }

  /** The first position at or after `i` that does not hold a blank, or `|s|`. */
  function PrimerNoBlanco(s: string, i: nat): (j: nat)
    requires i <= |s|
    ensures i <= j <= |s|
    ensures forall k :: i <= k < j ==> EsBlanco(s[k])
    ensures j == |s| || !EsBlanco(s[j])
    decreases |s| - i
  {
    if i < |s| && EsBlanco(s[i]) then PrimerNoBlanco(s, i + 1) else i
  }

  /** The end of `s[i..j]` once its trailing blanks are dropped. */
  function FinSinBlancos(s: string, i: nat, j: nat): (e: nat)
    requires i <= j <= |s|
    ensures i <= e <= j
    ensures forall k :: e <= k < j ==> EsBlanco(s[k])
    ensures e == i || !EsBlanco(s[e - 1])
    decreases j
  {
    if i < j && EsBlanco(s[j - 1]) then FinSinBlancos(s, i, j - 1) else j
  }

  /**
   * `trim`: the slice of `s` left after dropping the blanks at both ends.
   * The result is a contiguous piece of `s`, everything of `s` outside it is
   * blank, and it neither starts nor ends with a blank.
   */
  function Recortar(s: string): (r: string)
    ensures r == [] || (!EsBlanco(r[0]) && !EsBlanco(r[|r| - 1]))
    ensures exists i :: TrozoEntreBlancos(s, r, i)
  {
    var i := PrimerNoBlanco(s, 0);
    var e := FinSinBlancos(s, i, |s|);
    assert TrozoEntreBlancos(s, s[i..e], i);
    s[i..e]
  }

  /** `r` is the piece of `s` starting at `i`, and all of `s` around it is blank. */
  ghost predicate TrozoEntreBlancos(s: string, r: string, i: int)
  {
    && 0 <= i <= |s| - |r| && r == s[i..i + |r|]
    && (forall k :: 0 <= k < i ==> EsBlanco(s[k]))
    && (forall k :: i + |r| <= k < |s| ==> EsBlanco(s[k]))
  }

  /** Trimming twice is trimming once. */
  lemma RecortarIdempotente(s: string)
    ensures Recortar(Recortar(s)) == Recortar(s)
  {
  }

  /** The trimmed string is empty exactly when every character of `s` is blank. */
  lemma RecortarVacio(s: string)
    ensures Recortar(s) == [] <==> forall k :: 0 <= k < |s| ==> EsBlanco(s[k])
  {
    var r := Recortar(s);
    var i :| TrozoEntreBlancos(s, r, i);
    if r != [] {
      assert s[i] == r[0];
    }
  }

  /**
   * `toLowerCase` on one character. Only the upper-case letters of Basic Latin
   * and Latin-1 are mapped (each to the code point 32 above it); the
   * multiplication sign U+00D7 sits in that block and is not a letter.
   */
  function MinusculaChar(c: char): char
  {
    if 'A' <= c <= 'Z' || ('\U{00C0}' <= c <= '\U{00DE}' && c != '\U{00D7}') then
      (c as int + 32) as char
    else
      c
  }

  /** `toLowerCase` on a string: character by character, length preserved. */
  function Minusculas(s: string): (r: string)
    ensures |r| == |s|
    ensures forall i :: 0 <= i < |s| ==> r[i] == MinusculaChar(s[i])
  {
    if s == [] then [] else [MinusculaChar(s[0])] + Minusculas(s[1..])
  }

  /** Lower-casing a lower-cased string changes nothing. */
  lemma MinusculasIdempotente(s: string)
    ensures Minusculas(Minusculas(s)) == Minusculas(s)
  {
    var m := Minusculas(s);
    assert forall i :: 0 <= i < |m| ==> MinusculaChar(m[i]) == m[i];
  }
}
