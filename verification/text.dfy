/** String helpers with JavaScript semantics: `indexOf`, `split` on one
    character, `trim` and `padStart`. Strings are sequences of Unicode
    scalar values; no normalisation or case folding takes place. */
module Text {
  import opened Wrappers

  /** `s.indexOf(c)`: the first position of `c`, or None for -1. */
  function IndexOf(s: string, c: char): (r: Option<nat>)
    ensures r.Some? ==> r.value < |s| && s[r.value] == c && c !in s[..r.value]
    ensures r.None? <==> c !in s
  {
    if |s| == 0 then None
    else if s[0] == c then Some(0)
    else match IndexOf(s[1..], c)
      case None => None
      case Some(k) =>
        assert s[..k + 1] == [s[0]] + s[1..][..k];
        Some(k + 1)
  }

  /** `s.split(sep)`: the pieces between occurrences of `sep`, in order.
      The empty string splits into one empty piece, as in JavaScript. */
  function Split(s: string, sep: char): (pieces: seq<string>)
    ensures |pieces| >= 1
    ensures forall i :: 0 <= i < |pieces| ==> sep !in pieces[i]
    decreases |s|
  {
    match IndexOf(s, sep)
    case None => [s]
    case Some(k) => [s[..k]] + Split(s[k + 1..], sep)
  }

  /** `pieces.join(sep)`, the inverse of `Split`. */
  function Join(pieces: seq<string>, sep: char): string
    requires |pieces| >= 1
  {
    if |pieces| == 1 then pieces[0] else pieces[0] + [sep] + Join(pieces[1..], sep)
  }

  /** Splitting and joining again gives back the original string. */
  lemma {:induction false} JoinSplit(s: string, sep: char)
    ensures Join(Split(s, sep), sep) == s
    decreases |s|
  {
    match IndexOf(s, sep)
    case None =>
    case Some(k) =>
      var pieces := Split(s, sep);
      var rest := Split(s[k + 1..], sep);
      assert pieces == [s[..k]] + rest;
      assert pieces[1..] == rest;
      JoinSplit(s[k + 1..], sep);
      calc {
        Join(pieces, sep);
        s[..k] + [sep] + Join(rest, sep);
        s[..k] + [sep] + s[k + 1..];
        { assert s == s[..k] + [sep] + s[k + 1..]; }
        s;
      }
  }

  /** Joining pieces that do not contain the separator and splitting again
      gives back the pieces. */
  lemma {:induction false} SplitJoin(pieces: seq<string>, sep: char)
    requires |pieces| >= 1
    requires forall i :: 0 <= i < |pieces| ==> sep !in pieces[i]
    ensures Split(Join(pieces, sep), sep) == pieces
  {
    var s := Join(pieces, sep);
    if |pieces| == 1 {
      assert IndexOf(s, sep).None?;
    } else {
      var p := pieces[0];
      var rest := Join(pieces[1..], sep);
      assert s == p + [sep] + rest;
      assert s[|p|] == sep;
      assert s[..|p|] == p;
      assert IndexOf(s, sep) == Some(|p|);
      assert s[|p| + 1..] == rest;
      SplitJoin(pieces[1..], sep);
    }
  }

  /** The characters JavaScript's `trim` removes: the ECMAScript WhiteSpace
      and LineTerminator code points. */
  predicate IsSpace(c: char) {
    || c == ' ' || c == '\t' || c == '\n' || c == '\r'
    || c == '\U{000B}' || c == '\U{000C}' || c == '\U{00A0}' || c == '\U{FEFF}'
    || c == '\U{1680}' || ('\U{2000}' <= c <= '\U{200A}')
    || c == '\U{2028}' || c == '\U{2029}' || c == '\U{202F}' || c == '\U{205F}'
    || c == '\U{3000}'
  }

  function TrimStart(s: string): (t: string)
    ensures |t| <= |s| && t == s[|s| - |t|..]
    ensures forall i :: 0 <= i < |s| - |t| ==> IsSpace(s[i])
    ensures |t| > 0 ==> !IsSpace(t[0])
  {
    if |s| > 0 && IsSpace(s[0]) then TrimStart(s[1..]) else s
  }

  function TrimEnd(s: string): (t: string)
    ensures |t| <= |s| && t == s[..|t|]
    ensures forall i :: |t| <= i < |s| ==> IsSpace(s[i])
    ensures |t| > 0 ==> !IsSpace(t[|t| - 1])
  {
    if |s| > 0 && IsSpace(s[|s| - 1]) then TrimEnd(s[..|s| - 1]) else s
  }

  /** Number of leading white-space characters `trim` cuts off. */
  function TrimOffset(s: string): nat {
    |s| - |TrimStart(s)|
  }

  /** `s.trim()`: the infix of `s` that neither starts nor ends with white
      space; everything cut off on either side is white space. */
  function Trim(s: string): (t: string)
    ensures TrimOffset(s) + |t| <= |s|
    ensures t == s[TrimOffset(s)..TrimOffset(s) + |t|]
    ensures forall i :: 0 <= i < TrimOffset(s) ==> IsSpace(s[i])
    ensures forall i :: TrimOffset(s) + |t| <= i < |s| ==> IsSpace(s[i])
    ensures |t| > 0 ==> !IsSpace(t[0]) && !IsSpace(t[|t| - 1])
  {
    var a := TrimStart(s);
    var t := TrimEnd(a);
    InfixOfSuffix(s, |s| - |a|, a, t);
    t
  }

  /** A prefix `t` of the suffix `a` of `s` from `k` is an infix of `s`, and
      what follows `t` in `a` follows it in `s`. */
  lemma InfixOfSuffix(s: string, k: nat, a: string, t: string)
    requires k <= |s| && a == s[k..] && |t| <= |a| && t == a[..|t|]
    requires forall j :: |t| <= j < |a| ==> IsSpace(a[j])
    ensures t == s[k..k + |t|]
    ensures forall i :: k + |t| <= i < |s| ==> IsSpace(s[i])
    ensures |t| > 0 ==> t[0] == a[0]
  {
    forall i | k + |t| <= i < |s| ensures IsSpace(s[i]) {
      assert s[i] == a[i - k];
    }
  }

  /** A string is blank, as the source's `!s.trim()` tests, exactly when every
      character of it is white space. */
  predicate IsBlank(s: string) {
    Trim(s) == ""
  }

  lemma BlankIffAllSpace(s: string)
    ensures IsBlank(s) <==> forall i :: 0 <= i < |s| ==> IsSpace(s[i])
  {
    var t := Trim(s);
    if !IsBlank(s) {
      assert s[TrimOffset(s)] == t[0];
    }
  }

  /** `s.padStart(width, fill)` for a one-character fill. */
  function PadStart(s: string, width: nat, fill: char): (r: string)
    ensures |r| == if |s| >= width then |s| else width
    ensures r[|r| - |s|..] == s
    ensures forall i :: 0 <= i < |r| - |s| ==> r[i] == fill
    decreases width - |s|
  {
    if |s| >= width then s else PadStart([fill] + s, width, fill)
  }
}
