/**
 * The parts of Go's `strings` and `unicode` packages that the handlers and
 * the auth package rely on: splitting on one separator, joining, trimming
 * white space, lower-casing for comparisons, and the byte length `len(s)`
 * of a string held as UTF-8.
 */
module Text {

  /** Go's `unicode.IsSpace`: the Unicode White_Space property. */
  predicate IsSpace(c: char)
    ensures c as int < 0x80 ==>
      (IsSpace(c) <==> c == ' ' || c == '\t' || c == '\n' || c == '\U{000B}' || c == '\U{000C}' || c == '\r')
    ensures IsSpace(c) ==> c != '\U{200B}' && c != '\U{FEFF}'
  {
    || ('\t' <= c <= '\r') || c == ' '
    || c == '\U{0085}' || c == '\U{00A0}' || c == '\U{1680}'
    || ('\U{2000}' <= c <= '\U{200A}')
    || c == '\U{2028}' || c == '\U{2029}' || c == '\U{202F}' || c == '\U{205F}' || c == '\U{3000}'
  }

  /** Every character of `s` from index `i` up to `j` is white space. */
  predicate SpaceBetween(s: string, i: nat, j: nat)
    requires i <= j <= |s|
  {
    forall k :: i <= k < j ==> IsSpace(s[k])
  }

  /** The first index at or after `i` that is not white space (the scan Go's TrimSpace does first). */
  function TrimStart(s: string, i: nat): (start: nat)
    requires i <= |s|
    ensures i <= start <= |s| && SpaceBetween(s, i, start)
    ensures start < |s| ==> !IsSpace(s[start])
    decreases |s| - i
  {
    if i < |s| && IsSpace(s[i]) then TrimStart(s, i + 1) else i
  }

  /** The end of the last non-space character after `start`, scanning back from `stop`. */
  function TrimStop(s: string, start: nat, stop: nat): (j: nat)
    requires start <= stop <= |s|
    ensures start <= j <= stop && SpaceBetween(s, j, stop)
    ensures j > start ==> !IsSpace(s[j - 1])
    decreases stop
  {
    if stop > start && IsSpace(s[stop - 1]) then TrimStop(s, start, stop - 1) else stop
  }

  /**
   * Go's `strings.TrimSpace`: `s` with the white space at both ends cut off,
   * leaving a slice that neither starts nor ends with white space.
   */
  function TrimSpace(s: string): (r: string)
    ensures exists i, j :: 0 <= i <= j <= |s| && r == s[i..j] && SpaceBetween(s, 0, i) && SpaceBetween(s, j, |s|)
    ensures r == [] || (!IsSpace(r[0]) && !IsSpace(r[|r| - 1]))
  {
    var i := TrimStart(s, 0);
    var j := TrimStop(s, i, |s|);
    s[i..j]
  }

  /** A string with no white space in it is its own trim. */
  lemma TrimSpaceNoSpace(s: string)
    requires forall k :: 0 <= k < |s| ==> !IsSpace(s[k])
    ensures TrimSpace(s) == s
  {
    var i := TrimStart(s, 0);
    var j := TrimStop(s, i, |s|);
    if |s| > 0 {
      assert !IsSpace(s[0]) && !IsSpace(s[|s| - 1]);
    }
  }

  /** Lower case as seen by a comparison with an ASCII literal (see README). */
  function LowerChar(c: char): char {
    if 'A' <= c <= 'Z' then (c as int + 32) as char
    else if c == '\U{0130}' then 'i'
    else if c == '\U{212A}' then 'k'
    else c
  }

  /** Go's `strings.ToLower`, character by character. */
  function ToLower(s: string): (r: string)
    ensures |r| == |s|
  {
    seq(|s|, k requires 0 <= k < |s| => LowerChar(s[k]))
  }

  /**
   * Go's `strings.Split(s, sep)` for a one-character separator: the pieces
   * between consecutive separators, always at least one (`""` gives `[""]`).
   */
  function Split(s: string, sep: char): (r: seq<string>)
    ensures |r| >= 1
  {
    if s == [] then [""]
    else
      var rest := Split(s[1..], sep);
      if s[0] == sep then [""] + rest
      else [[s[0]] + rest[0]] + rest[1..]
  }

  /** Go's `strings.Join(ws, [sep])`. */
  function Join(ws: seq<string>, sep: char): (r: string)
    ensures |ws| > 0 ==> ws[0] <= r
    ensures |ws| > 1 ==> |ws[0]| < |r| && r[|ws[0]|] == sep
  {
    if ws == [] then ""
    else if |ws| == 1 then ws[0]
    else ws[0] + [sep] + Join(ws[1..], sep)
  }

  predicate Free(s: string, sep: char) {
    forall k :: 0 <= k < |s| ==> s[k] != sep
  }

  /** No piece that `Split` returns contains the separator. */
  lemma {:induction false} SplitPiecesFree(s: string, sep: char)
    ensures forall i :: 0 <= i < |Split(s, sep)| ==> Free(Split(s, sep)[i], sep)
  {
    if s != [] {
      SplitPiecesFree(s[1..], sep);
      var rest := Split(s[1..], sep);
      if s[0] != sep {
        var head := [s[0]] + rest[0];
        assert Free(head, sep) by {
          forall k | 0 <= k < |head| ensures head[k] != sep {
            if k > 0 { assert head[k] == rest[0][k - 1]; }
          }
        }
        forall i | 0 <= i < |Split(s, sep)| ensures Free(Split(s, sep)[i], sep) {
          if i > 0 { assert Split(s, sep)[i] == rest[i]; }
        }
      } else {
        forall i | 0 <= i < |Split(s, sep)| ensures Free(Split(s, sep)[i], sep) {
          if i > 0 { assert Split(s, sep)[i] == rest[i - 1]; }
        }
      }
    }
  }

  /** Joining the pieces with the same separator gives back the string. */
  lemma {:induction false} JoinSplit(s: string, sep: char)
    ensures Join(Split(s, sep), sep) == s
  {
    if s != [] {
      JoinSplit(s[1..], sep);
      var rest := Split(s[1..], sep);
      if s[0] == sep {
        assert Split(s, sep)[1..] == rest;
      } else {
        var r := Split(s, sep);
        assert r[1..] == rest[1..];
        if |rest| == 1 {
          assert Join(r, sep) == [s[0]] + rest[0];
        } else {
          assert Join(r, sep) == [s[0]] + rest[0] + [sep] + Join(rest[1..], sep);
          assert Join(rest, sep) == rest[0] + [sep] + Join(rest[1..], sep);
        }
      }
    }
  }

  /** Prepending a separator-free character to a string extends its first piece. */
  lemma SplitCons(c: char, s: string, sep: char)
    requires c != sep
    ensures Split([c] + s, sep) == [[c] + Split(s, sep)[0]] + Split(s, sep)[1..]
  {
    assert ([c] + s)[1..] == s;
  }

  /** A separator-free word followed by a separator and a string. */
  lemma {:induction false} SplitWordSep(w: string, s: string, sep: char)
    requires Free(w, sep)
    ensures Split(w + [sep] + s, sep) == [w] + Split(s, sep)
  {
    if w == [] {
      assert ([] + [sep] + s)[1..] == s;
    } else {
      assert w + [sep] + s == [w[0]] + (w[1..] + [sep] + s);
      SplitWordSep(w[1..], s, sep);
      SplitCons(w[0], w[1..] + [sep] + s, sep);
      assert [w[0]] + w[1..] == w;
    }
  }

  /** A separator-free word alone is one piece. */
  lemma {:induction false} SplitWord(w: string, sep: char)
    requires Free(w, sep)
    ensures Split(w, sep) == [w]
  {
    if w != [] {
      SplitWord(w[1..], sep);
      SplitCons(w[0], w[1..], sep);
      assert [w[0]] + w[1..] == w;
    }
  }

  /** Splitting a join of separator-free words gives back the words. */
  lemma {:induction false} SplitJoin(ws: seq<string>, sep: char)
    requires |ws| >= 1
    requires forall i :: 0 <= i < |ws| ==> Free(ws[i], sep)
    ensures Split(Join(ws, sep), sep) == ws
  {
    if |ws| == 1 {
      SplitWord(ws[0], sep);
    } else {
      SplitJoin(ws[1..], sep);
      SplitWordSep(ws[0], Join(ws[1..], sep), sep);
    }
  }

  /** The number of bytes Go's UTF-8 encoding uses for one character. */
  function Utf8Width(c: char): nat {
    if c as int < 0x80 then 1
    else if c as int < 0x800 then 2
    else if c as int < 0x1_0000 then 3
    else 4
  }

  /** Go's `len(s)`: the byte length of the UTF-8 encoding of `s`. */
  function ByteLen(s: string): (n: nat)
    ensures |s| <= n <= 4 * |s|
  {
    if s == [] then 0 else Utf8Width(s[0]) + ByteLen(s[1..])
  }

  predicate IsAscii(s: string) {
    forall k :: 0 <= k < |s| ==> s[k] as int < 0x80
  }

  /** A string's byte length equals its character count exactly when it is ASCII. */
  lemma {:induction false} ByteLenAscii(s: string)
    ensures ByteLen(s) == |s| <==> IsAscii(s)
  {
    if s != [] {
      ByteLenAscii(s[1..]);
      assert IsAscii(s) <==> s[0] as int < 0x80 && IsAscii(s[1..]) by {
        if s[0] as int < 0x80 && IsAscii(s[1..]) {
          forall k | 0 <= k < |s| ensures s[k] as int < 0x80 {
            if k > 0 { assert s[k] == s[1..][k - 1]; }
          }
        }
      }
    }
  }
}
