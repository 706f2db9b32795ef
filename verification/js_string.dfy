/** The two JavaScript string operations the formatter relies on, with
    ECMAScript semantics:
    - `String.prototype.split` with a one-character separator. Empty pieces
      are kept, and the result always has at least one piece.
    - `String.prototype.substring`. Both arguments are clamped to the string
      bounds, and they are swapped when the start exceeds the end.
    `Array.prototype.join` is modelled as well, because it is the inverse of
    `split`.
 */
module JsString {

  /** Number of occurrences of `c` in `s`. */
  function Count(s: string, c: char): (n: nat)
    ensures n <= |s|
    ensures n == 0 <==> c !in s
  {
    if |s| == 0 then 0
    else (if s[0] == c then 1 else 0) + Count(s[1..], c)
  }

  lemma {:induction false} CountConcat(a: string, b: string, c: char)
    ensures Count(a + b, c) == Count(a, c) + Count(b, c)
    decreases |a|
  {
    if |a| == 0 {
      assert a + b == b;
    } else {
      assert (a + b)[1..] == a[1..] + b;
      CountConcat(a[1..], b, c);
    }
  }

  /** `parts.join(sep)`: the pieces with one `sep` between neighbours. */
  function Join(parts: seq<string>, sep: char): (s: string)
    ensures |parts| == 1 ==> s == parts[0]
    ensures |parts| >= 1 && (forall i :: 0 <= i < |parts| ==> sep !in parts[i]) ==>
              Count(s, sep) == |parts| - 1
  {
    if |parts| == 0 then ""
    else if |parts| == 1 then parts[0]
    else
      var tail := Join(parts[1..], sep);
      CountConcat(parts[0], [sep] + tail, sep);
      CountConcat([sep], tail, sep);
      assert Count([sep], sep) == 1;
      assert parts[0] + [sep] + tail == parts[0] + ([sep] + tail);
      assert forall i :: 1 <= i < |parts| ==> parts[i] == parts[1..][i - 1];
      parts[0] + [sep] + tail
  }

  /** Joining a suffix of the pieces: its first piece, a separator, and the
      join of the rest. */
  lemma JoinSuffix(parts: seq<string>, k: nat, sep: char)
    requires k + 1 < |parts|
    ensures Join(parts[k..], sep) == parts[k] + [sep] + Join(parts[k + 1..], sep)
  {
    assert parts[k..][1..] == parts[k + 1..];
  }

  /** `s.split(sep)` for a one-character separator. */
  function Split(s: string, sep: char): (parts: seq<string>)
    ensures |parts| == Count(s, sep) + 1
    ensures forall i :: 0 <= i < |parts| ==> sep !in parts[i]
  {
    if |s| == 0 then [""]
    else
      var rest := Split(s[1..], sep);
      if s[0] == sep then [""] + rest
      else [[s[0]] + rest[0]] + rest[1..]
  }

  /** Joining after a leading piece: the piece, a separator, the rest. */
  lemma JoinCons(head: string, rest: seq<string>, sep: char)
    requires |rest| >= 1
    ensures Join([head] + rest, sep) == head + [sep] + Join(rest, sep)
  {
    assert ([head] + rest)[1..] == rest;
  }

  /** Joining after a character is glued to the front of the first piece. */
  lemma JoinGlue(c: char, parts: seq<string>, sep: char)
    requires |parts| >= 1
    ensures Join([[c] + parts[0]] + parts[1..], sep) == [c] + Join(parts, sep)
  {
    if |parts| > 1 {
      JoinCons([c] + parts[0], parts[1..], sep);
      assert parts == [parts[0]] + parts[1..];
      JoinCons(parts[0], parts[1..], sep);
    }
  }

  /** `join` undoes `split`: gluing the pieces back with the separator gives
      the original string. */
  lemma {:induction false} JoinSplit(s: string, sep: char)
    ensures Join(Split(s, sep), sep) == s
    decreases |s|
  {
    if |s| > 0 {
      var rest := Split(s[1..], sep);
      assert Join(rest, sep) == s[1..] by {
        JoinSplit(s[1..], sep);
      }
      assert s == [s[0]] + s[1..];
      if s[0] == sep {
        JoinCons("", rest, sep);
      } else {
        JoinGlue(s[0], rest, sep);
      }
    }
  }

  /** One step of `split`: a leading non-separator joins the first piece. */
  lemma SplitConsPlain(c: char, t: string, sep: char)
    requires c != sep
    ensures Split([c] + t, sep) == [[c] + Split(t, sep)[0]] + Split(t, sep)[1..]
  {
    assert ([c] + t)[1..] == t;
  }

  /** One step of `split`: a leading separator closes an empty piece. */
  lemma SplitConsSeparator(t: string, sep: char)
    ensures Split([sep] + t, sep) == [""] + Split(t, sep)
  {
    assert ([sep] + t)[1..] == t;
  }

  /** Splitting a piece that holds no separator, followed by anything, glues
      that piece to the front of the first piece of the rest. */
  lemma {:induction false} SplitAfterPlainPrefix(a: string, rest: string, sep: char)
    requires sep !in a
    ensures Split(a + rest, sep) == [a + Split(rest, sep)[0]] + Split(rest, sep)[1..]
    decreases |a|
  {
    var r := Split(rest, sep);
    if |a| == 0 {
      assert a + rest == rest;
      assert a + r[0] == r[0];
      assert r == [r[0]] + r[1..];
    } else {
      var inner := Split(a[1..] + rest, sep);
      assert inner == [a[1..] + r[0]] + r[1..] by {
        SplitAfterPlainPrefix(a[1..], rest, sep);
      }
      assert Split(a + rest, sep) == [[a[0]] + inner[0]] + inner[1..] by {
        assert a + rest == [a[0]] + (a[1..] + rest);
        SplitConsPlain(a[0], a[1..] + rest, sep);
      }
      assert [a[0]] + inner[0] == a + r[0] by {
        assert a == [a[0]] + a[1..];
      }
    }
  }

  /** `split` undoes `join` whenever no piece contains the separator. */
  lemma {:induction false} SplitJoin(parts: seq<string>, sep: char)
    requires |parts| >= 1
    requires forall i :: 0 <= i < |parts| ==> sep !in parts[i]
    ensures Split(Join(parts, sep), sep) == parts
    decreases |parts|
  {
    if |parts| == 1 {
      assert Split(parts[0] + "", sep) == [parts[0] + Split("", sep)[0]] by {
        SplitAfterPlainPrefix(parts[0], "", sep);
      }
      assert parts[0] + "" == parts[0];
    } else {
      var tail := Join(parts[1..], sep);
      assert Split([sep] + tail, sep) == [""] + parts[1..] by {
        SplitJoin(parts[1..], sep);
        SplitConsSeparator(tail, sep);
      }
      assert Join(parts, sep) == parts[0] + ([sep] + tail);
      assert Split(parts[0] + ([sep] + tail), sep) == [parts[0] + ""] + parts[1..] by {
        SplitAfterPlainPrefix(parts[0], [sep] + tail, sep);
      }
      assert parts[0] + "" == parts[0];
      assert parts == [parts[0]] + parts[1..];
    }
  }

  /** Every character of a piece appears in the joined string. */
  lemma {:induction false} JoinKeepsPieceCharacters(parts: seq<string>, sep: char)
    ensures forall i, x :: 0 <= i < |parts| && x in parts[i] ==> x in Join(parts, sep)
    decreases |parts|
  {
    if |parts| > 1 {
      JoinKeepsPieceCharacters(parts[1..], sep);
      forall i, x | 0 <= i < |parts| && x in parts[i]
        ensures x in Join(parts, sep)
      {
        if i > 0 {
          assert parts[i] == parts[1..][i - 1];
        }
      }
    }
  }

  /** A character that is neither the separator nor in any piece is not in
      the joined string. */
  lemma {:induction false} JoinAvoidsCharacter(parts: seq<string>, sep: char, c: char)
    requires c != sep
    requires forall i :: 0 <= i < |parts| ==> c !in parts[i]
    ensures c !in Join(parts, sep)
    decreases |parts|
  {
    if |parts| > 1 {
      assert forall i :: 1 <= i < |parts| ==> parts[i] == parts[1..][i - 1];
      JoinAvoidsCharacter(parts[1..], sep, c);
    }
  }

  /** Every character of a piece of `split` comes from the split string. */
  lemma SplitPiecesComeFromSource(s: string, sep: char)
    ensures forall i, x :: 0 <= i < |Split(s, sep)| && x in Split(s, sep)[i] ==> x in s
  {
    JoinSplit(s, sep);
    JoinKeepsPieceCharacters(Split(s, sep), sep);
  }

  /** A string without the separator splits into itself alone. */
  lemma SplitWithoutSeparator(s: string, sep: char)
    requires sep !in s
    ensures Split(s, sep) == [s]
  {
    SplitJoin([s], sep);
  }

  /** The argument clamping of `substring`: into the range [0, len]. */
  function Clamp(x: int, len: nat): (r: nat)
    ensures r <= len
    ensures 0 <= x <= len ==> r == x
    ensures x < 0 ==> r == 0
    ensures x > len ==> r == len
  {
    if x < 0 then 0 else if x > len then len else x
  }

  /** `s.substring(start, end)`. */
  function JsSubstring(s: string, start: int, end: int): (r: string)
    ensures 0 <= start <= end <= |s| ==> r == s[start..end]
    ensures forall x :: x in r ==> x in s
  {
    var a := Clamp(start, |s|);
    var b := Clamp(end, |s|);
    if a <= b then s[a..b] else s[b..a]
  }

  /** `substring` is symmetric in its two arguments. */
  lemma JsSubstringSwap(s: string, start: int, end: int)
    ensures JsSubstring(s, start, end) == JsSubstring(s, end, start)
  {
  }

  /** Out-of-range arguments act as the nearest bound. */
  lemma JsSubstringClamps(s: string, start: int, end: int)
    ensures start < 0 ==> JsSubstring(s, start, end) == JsSubstring(s, 0, end)
    ensures end > |s| ==> JsSubstring(s, start, end) == JsSubstring(s, start, |s|)
  {
  }
}
