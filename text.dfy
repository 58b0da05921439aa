/** The string operations the view model uses for display text:
    JavaScript's `indexOf`, `split` and `join` on strings, ASCII
    lower-casing, and the two normalisations built from them (keeping the
    part after a colon, cutting a user name before " ("). */
module Text {

  /** `sub` occurs in `s` starting at position `i`. */
  predicate OccursAt(s: string, sub: string, i: nat)
  {
    i + |sub| <= |s| && s[i..i + |sub|] == sub
  }

  /** `s.indexOf(sub)`: the first position where `sub` occurs, or -1. */
  function IndexOf(s: string, sub: string): (r: int)
    ensures -1 <= r <= |s|
    ensures r >= 0 ==> OccursAt(s, sub, r)
    ensures r >= 0 ==> forall j: nat :: j < r ==> !OccursAt(s, sub, j)
    ensures r == -1 ==> forall j: nat :: !OccursAt(s, sub, j)
    decreases |s|
  {
    if |sub| > |s| then -1
    else if s[..|sub|] == sub then 0
    else
      var r := IndexOf(s[1..], sub);
      OccursAfterFirst(s, sub);
      if r == -1 then -1 else r + 1
  }

  /** Where `sub` occurs in `s` past its first place, it occurs in `s[1..]`
      one place earlier. */
  lemma OccursAfterFirst(s: string, sub: string)
    requires |s| > 0
    ensures OccursAt(s, sub, 0) <==> |sub| <= |s| && s[..|sub|] == sub
    ensures forall j: nat {:trigger OccursAt(s, sub, j)} ::
      j >= 1 ==> (OccursAt(s, sub, j) <==> OccursAt(s[1..], sub, j - 1))
  {
  }

  /** `s.split(sep)` for a non-empty separator: the pieces between the
      successive left-to-right, non-overlapping occurrences of `sep`. */
  function Split(s: string, sep: string): (pieces: seq<string>)
    requires |sep| > 0
    ensures |pieces| >= 1
    ensures IndexOf(s, sep) >= 0 ==> |pieces| >= 2
    decreases |s|
  {
    var i := IndexOf(s, sep);
    if i == -1 then [s]
    else [s[..i]] + Split(s[i + |sep|..], sep)
  }

  /** `pieces.join(sep)`. */
  function Join(pieces: seq<string>, sep: string): string
  {
    if |pieces| == 0 then ""
    else if |pieces| == 1 then pieces[0]
    else pieces[0] + sep + Join(pieces[1..], sep)
  }

  /** Where piece `k` starts in `Join(pieces, sep)`: after the earlier
      pieces, each followed by the separator. */
  function JoinOffset(pieces: seq<string>, sep: string, k: nat): nat
    requires k <= |pieces|
  {
    if k == 0 then 0 else |pieces[0]| + |sep| + JoinOffset(pieces[1..], sep, k - 1)
  }

  /** What occurs in `b` occurs in `a + b`, `|a|` places later. */
  lemma OccursShifted(a: string, b: string, sub: string, i: nat)
    requires OccursAt(b, sub, i)
    ensures OccursAt(a + b, sub, |a| + i)
  {
    assert (a + b)[|a| + i..|a| + i + |sub|] == b[i..i + |sub|];
  }

  /** Every piece occurs in the join at its offset, followed by the
      separator unless it is the last piece, which ends the join. */
  lemma {:induction false} JoinPieceAt(pieces: seq<string>, sep: string, k: nat)
    requires k < |pieces|
    ensures OccursAt(Join(pieces, sep), pieces[k], JoinOffset(pieces, sep, k))
    ensures k + 1 < |pieces| ==>
      OccursAt(Join(pieces, sep), sep, JoinOffset(pieces, sep, k) + |pieces[k]|)
    ensures k + 1 == |pieces| ==> |Join(pieces, sep)| == JoinOffset(pieces, sep, k) + |pieces[k]|
  {
    var j := Join(pieces, sep);
    if k == 0 {
      if |pieces| > 1 {
        assert j == pieces[0] + sep + Join(pieces[1..], sep);
        assert j[..|pieces[0]|] == pieces[0];
        assert j[|pieces[0]|..|pieces[0]| + |sep|] == sep;
      }
    } else {
      var rest := pieces[1..];
      JoinPieceAt(rest, sep, k - 1);
      assert j == (pieces[0] + sep) + Join(rest, sep);
      assert rest[k - 1] == pieces[k];
      OccursShifted(pieces[0] + sep, Join(rest, sep), pieces[k], JoinOffset(rest, sep, k - 1));
      if k + 1 < |pieces| {
        OccursShifted(pieces[0] + sep, Join(rest, sep), sep, JoinOffset(rest, sep, k - 1) + |rest[k - 1]|);
      }
    }
  }

  /** Splitting loses nothing: joining the pieces with the separator gives
      back the original string. */
  lemma {:induction false} JoinSplit(s: string, sep: string)
    requires |sep| > 0
    ensures Join(Split(s, sep), sep) == s
    decreases |s|
  {
    var i := IndexOf(s, sep);
    if i != -1 {
      var rest := s[i + |sep|..];
      JoinSplit(rest, sep);
      var tail := Split(rest, sep);
      var pieces := [s[..i]] + tail;
      assert Split(s, sep) == pieces;
      assert pieces[1..] == tail;
      assert Join(pieces, sep) == s[..i] + sep + rest;
      assert s[i..i + |sep|] == sep;
      assert s == s[..i] + s[i..i + |sep|] + rest;
    }
  }

  /** No piece of a split contains the separator. */
  lemma {:induction false} SplitPiecesFree(s: string, sep: string)
    requires |sep| > 0
    ensures forall k :: 0 <= k < |Split(s, sep)| ==> IndexOf(Split(s, sep)[k], sep) == -1
    decreases |s|
  {
    var i := IndexOf(s, sep);
    if i != -1 {
      SplitPiecesFree(s[i + |sep|..], sep);
      PrefixBeforeFirstIsFree(s, sep, i);
    }
  }

  /** The text before the first occurrence of `sub` does not contain `sub`. */
  lemma {:induction false} PrefixBeforeFirstIsFree(s: string, sub: string, i: int)
    requires |sub| > 0 && 0 <= i <= |s| && i == IndexOf(s, sub)
    ensures IndexOf(s[..i], sub) == -1
  {
    var p := s[..i];
    var r := IndexOf(p, sub);
    if r != -1 {
      assert OccursAt(s, sub, r) by {
        assert p[r..r + |sub|] == s[r..r + |sub|];
      }
      assert false;
    }
  }

  /** `display.indexOf(":") > -1 ? display.split(":")[1] : display`:
      the legacy "Group: Name" display convention, reduced to the text
      between the first and the second colon. */
  function NormaliseDisplay(display: string): string
  {
    if IndexOf(display, ":") > -1 then Split(display, ":")[1] else display
  }

  /** A display without a colon is kept; otherwise the result is exactly the
      text that follows the first colon and runs up to the next colon or the
      end, untrimmed, and it holds no colon itself. */
  lemma NormaliseDisplaySpec(display: string)
    ensures IndexOf(display, ":") == -1 ==> NormaliseDisplay(display) == display
    ensures IndexOf(display, ":") >= 0 ==>
      var i, r := IndexOf(display, ":"), NormaliseDisplay(display);
      && IndexOf(r, ":") == -1
      && i + 1 + |r| <= |display|
      && display[i + 1..i + 1 + |r|] == r
      && (i + 1 + |r| == |display| || display[i + 1 + |r|] == ':')
  {
    var i := IndexOf(display, ":");
    if i >= 0 {
      var rest := display[i + 1..];
      var j := IndexOf(rest, ":");
      SplitPiecesFree(display, ":");
      assert Split(display, ":")[1] == Split(rest, ":")[0];
      if j >= 0 {
        assert OccursAt(rest, ":", j);
        assert rest[j] == ':';
      }
    }
  }

  /** `name.split(" (")[0]`: a name such as "Jane Doe (Lab Tech)" cut
      before its parenthesised suffix. */
  function TruncateName(name: string): string
  {
    Split(name, " (")[0]
  }

  /** The truncated name is the whole name when it holds no " (", and
      otherwise the text before its first " ("; it never holds " (". */
  lemma TruncateNameSpec(name: string)
    ensures IndexOf(TruncateName(name), " (") == -1
    ensures IndexOf(name, " (") == -1 ==> TruncateName(name) == name
    ensures IndexOf(name, " (") >= 0 ==>
      var t := TruncateName(name);
      |t| == IndexOf(name, " (") && name[..|t| + 2] == t + " ("
  {
    SplitPiecesFree(name, " (");
    var i := IndexOf(name, " (");
    if i >= 0 {
      assert OccursAt(name, " (", i);
      assert name[..i + 2] == name[..i] + name[i..i + 2];
    }
  }

  /** An ASCII upper-case letter. */
  predicate IsUpper(c: char)
  {
    'A' <= c <= 'Z'
  }

  /** `toLowerCase` on one character, for the ASCII letters. */
  function LowerChar(c: char): char
  {
    if IsUpper(c) then (c as int + 32) as char else c
  }

  /** `s.toLowerCase()`, for the ASCII letters. */
  function Lower(s: string): string
  {
    seq(|s|, i requires 0 <= i < |s| => LowerChar(s[i]))
  }

  /** A string with no ASCII upper-case letter. */
  predicate IsLower(s: string)
  {
    forall i :: 0 <= i < |s| ==> !IsUpper(s[i])
  }

  /** Lower-casing keeps the length and every character that is not an
      upper-case letter, turns each upper-case letter into the lower-case
      letter at the same place in the alphabet, leaves no upper-case letter
      behind, and does nothing to a lower-case string. */
  lemma LowerSpec(s: string)
    ensures |Lower(s)| == |s|
    ensures IsLower(Lower(s))
    ensures IsLower(s) ==> Lower(s) == s
    ensures forall i :: 0 <= i < |s| && !IsUpper(s[i]) ==> Lower(s)[i] == s[i]
    ensures forall i :: 0 <= i < |s| && IsUpper(s[i]) ==>
      'a' <= Lower(s)[i] <= 'z' && Lower(s)[i] as int - 'a' as int == s[i] as int - 'A' as int
  {
  }

  /** Joining lower-case pieces with a lower-case separator gives a
      lower-case string. */
  lemma {:induction false} JoinLower(pieces: seq<string>, sep: string)
    requires IsLower(sep)
    requires forall k :: 0 <= k < |pieces| ==> IsLower(pieces[k])
    ensures IsLower(Join(pieces, sep))
  {
    if |pieces| > 1 {
      JoinLower(pieces[1..], sep);
      ConcatLower(pieces[0], sep);
      ConcatLower(pieces[0] + sep, Join(pieces[1..], sep));
    }
  }

  /** Concatenation of lower-case strings is lower-case. */
  lemma ConcatLower(a: string, b: string)
    requires IsLower(a) && IsLower(b)
    ensures IsLower(a + b)
  {
  }
}
