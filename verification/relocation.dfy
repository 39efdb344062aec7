/** The build step that renames the SQLite natives: an in-place search and
    replace inside the null-terminated strings of a binary. A match is
    overwritten by the (not longer) replacement, the rest of that string is
    moved left to close the gap, a new terminator is written, and the scan
    resumes after the old terminator. `NativeRelocator` and
    `RelocateNatives` hold the same routine, modelled once here. */
module Relocation {
  import opened Wrappers
  import opened JavaInt

  /** How far `target` matches `buf` from `pos`, checking from the `k`th
      byte on: the inner `while` of the scan. */
  function MatchFrom(buf: seq<byte>, pos: nat, target: seq<byte>, k: nat): (m: nat)
    requires pos + |target| <= |buf| && k <= |target|
    ensures k <= m <= |target|
    decreases |target| - k
  {
    if k < |target| && buf[pos + k] == target[k] then MatchFrom(buf, pos, target, k + 1) else k
  }

  /** Started on an agreeing prefix, the match length is the length of the
      longest agreeing prefix: everything before it agrees, and the byte at
      it (if any) does not. */
  lemma {:induction false} MatchFromAgrees(buf: seq<byte>, pos: nat, target: seq<byte>, k: nat)
    requires pos + |target| <= |buf| && k <= |target| && buf[pos..pos + k] == target[..k]
    ensures var m := MatchFrom(buf, pos, target, k);
      buf[pos..pos + m] == target[..m] && (m < |target| ==> buf[pos + m] != target[m])
    decreases |target| - k
  {
    if k < |target| && buf[pos + k] == target[k] {
      assert buf[pos..pos + k + 1] == buf[pos..pos + k] + [buf[pos + k]];
      assert target[..k + 1] == target[..k] + [target[k]];
      MatchFromAgrees(buf, pos, target, k + 1);
    }
  }

  /** The length of the match at `pos`. */
  function MatchLength(buf: seq<byte>, pos: nat, target: seq<byte>): (m: nat)
    requires pos + |target| <= |buf|
    ensures m <= |target|
  {
    MatchFrom(buf, pos, target, 0)
  }

  /** The match is all of `target` exactly when `target` occurs at `pos`;
      a shorter match stops at a byte that differs. */
  lemma MatchLengthMeans(buf: seq<byte>, pos: nat, target: seq<byte>)
    requires pos + |target| <= |buf|
    ensures var m := MatchLength(buf, pos, target);
      (m == |target| <==> buf[pos..pos + |target|] == target) &&
      (m < |target| ==> buf[pos..pos + m] == target[..m] && buf[pos + m] != target[m])
  {
    MatchFromAgrees(buf, pos, target, 0);
  }

  /** The first null byte at or after `from`. */
  function NullFrom(buf: seq<byte>, from: nat): (n: Option<nat>)
    ensures n.Some? ==> from <= n.value < |buf|
    decreases |buf| - from
  {
    if from >= |buf| then None
    else if buf[from] == 0 then Some(from)
    else NullFrom(buf, from + 1)
  }

  /** `NullFrom` finds the first null, and finds none only when there is
      none. */
  lemma {:induction false} NullFromMeans(buf: seq<byte>, from: nat)
    ensures var n := NullFrom(buf, from);
      (n.Some? ==> buf[n.value] == 0 && forall i | from <= i < n.value :: buf[i] != 0) &&
      (n.None? ==> forall i | from <= i < |buf| :: buf[i] != 0)
    decreases |buf| - from
  {
    if from < |buf| && buf[from] != 0 {
      NullFromMeans(buf, from + 1);
    }
  }

  /** The buffer after a match at `pos` whose string ends at `n`: the
      replacement, then the rest of the string moved left by the length
      difference, then a null; the bytes from there on are untouched. */
  function Shifted(buf: seq<byte>, pos: nat, target: seq<byte>, replacement: seq<byte>, n: nat): (r: seq<byte>)
    requires |replacement| <= |target| && pos + |target| <= n < |buf|
    ensures |r| == |buf|
  {
    var gap := |target| - |replacement|;
    seq(|buf|, i requires 0 <= i < |buf| =>
      if i < pos then buf[i]
      else if i < pos + |replacement| then replacement[i - pos]
      else if i < n - gap then buf[i + gap]
      else if i == n - gap then 0
      else buf[i])
  }

  /** The move leaves the bytes before the match and after the old
      terminator alone, and puts the replacement at the match. */
  lemma ShiftedOutside(buf: seq<byte>, pos: nat, target: seq<byte>, replacement: seq<byte>, n: nat)
    requires |replacement| <= |target| && pos + |target| <= n < |buf|
    ensures var r := Shifted(buf, pos, target, replacement, n);
      (forall i | 0 <= i < pos :: r[i] == buf[i]) &&
      (forall i | n < i < |buf| :: r[i] == buf[i]) &&
      r[pos..pos + |replacement|] == replacement
  {
  }

  /** With equal lengths the move is a no-op: only the match changes. */
  lemma ShiftedEqualLength(buf: seq<byte>, pos: nat, target: seq<byte>, replacement: seq<byte>, n: nat)
    requires |replacement| == |target| && pos + |target| <= n < |buf| && buf[n] == 0
    ensures Shifted(buf, pos, target, replacement, n) == buf[..pos] + replacement + buf[pos + |target|..]
  {
    var r := Shifted(buf, pos, target, replacement, n);
    var e := buf[..pos] + replacement + buf[pos + |target|..];
    assert |r| == |e|;
    forall i | 0 <= i < |r|
      ensures r[i] == e[i]
    {
      if i < pos + |replacement| {
      } else if i < n {
      } else if i == n {
      } else {
        assert r[i] == r[n + 1..][i - n - 1];
      }
    }
  }

  /** Where the scan goes after a mismatch of length `m` at `pos`: as
      written it resumes after the mismatching byte, which is never itself
      tried as a start; `tryEveryStart` resumes at the next byte. */
  function NextStart(pos: nat, m: nat, tryEveryStart: bool): (p: nat)
    ensures p > pos
  {
    if tryEveryStart then pos + 1 else pos + m + 1
  }

  /** Whether the scan examines a start at `pos`: only starts below
      `length - |target| - 1`. */
  predicate Examined(buf: seq<byte>, target: seq<byte>, pos: nat)
  {
    pos < |buf| - |target| - 1
  }

  /** The outer `for` loop from `pos`. A match whose string has no null
      after it reads past the array and throws. */
  function ScanFrom(buf: seq<byte>, target: seq<byte>, replacement: seq<byte>, pos: nat, tryEveryStart: bool)
    : (r: Result<seq<byte>>)
    requires |replacement| <= |target|
    ensures r.Ok? ==> |r.value| == |buf|
    ensures r.Err? ==> r.error == IndexOutOfBounds
    decreases |buf| - pos
  {
    if !Examined(buf, target, pos) then Ok(buf)
    else
      var m := MatchLength(buf, pos, target);
      if m < |target| then
        ScanFrom(buf, target, replacement, NextStart(pos, m, tryEveryStart), tryEveryStart)
      else
        var n := NullFrom(buf, pos + |target|);
        if n.None? then Err(IndexOutOfBounds)
        else ScanFrom(Shifted(buf, pos, target, replacement, n.value), target, replacement, n.value + 1, tryEveryStart)
  }

  /** The scan never changes a byte before the start it begins at. */
  lemma {:induction false} ScanKeepsPrefix(buf: seq<byte>, target: seq<byte>, replacement: seq<byte>, pos: nat,
                                          tryEveryStart: bool)
    requires |replacement| <= |target|
    ensures var r := ScanFrom(buf, target, replacement, pos, tryEveryStart);
      r.Ok? ==> forall i | 0 <= i < pos && i < |buf| :: r.value[i] == buf[i]
    decreases |buf| - pos
  {
    if Examined(buf, target, pos) {
      var m := MatchLength(buf, pos, target);
      if m < |target| {
        ScanKeepsPrefix(buf, target, replacement, NextStart(pos, m, tryEveryStart), tryEveryStart);
      } else {
        var n := NullFrom(buf, pos + |target|);
        if n.Some? {
          ShiftedOutside(buf, pos, target, replacement, n.value);
          ScanKeepsPrefix(Shifted(buf, pos, target, replacement, n.value), target, replacement, n.value + 1, tryEveryStart);
        }
      }
    }
  }

  /** `replaceInNullTerminatedStrings` / `replaceInByteArray` as written. */
  function ReplaceAsWritten(buf: seq<byte>, target: seq<byte>, replacement: seq<byte>): (r: Result<seq<byte>>)
    ensures |target| < |replacement| <==> r.Err? && r.error.IllegalArgument?
    ensures r.Ok? ==> |r.value| == |buf|
  {
    if |target| < |replacement| then Err(IllegalArgument("Replacement must be the same length or shorter than the target."))
    else ScanFrom(buf, target, replacement, 0, false)
  }

  /** The same routine trying every start position, as its documentation
      ("replaces occurrences of a target string") intends. */
  function Replace(buf: seq<byte>, target: seq<byte>, replacement: seq<byte>): (r: Result<seq<byte>>)
    ensures |target| < |replacement| <==> r.Err? && r.error.IllegalArgument?
    ensures r.Ok? ==> |r.value| == |buf|
  {
    if |target| < |replacement| then Err(IllegalArgument("Replacement must be the same length or shorter than the target."))
    else ScanFrom(buf, target, replacement, 0, true)
  }

  /** Whether position `i` of `out` lies in a copy of the replacement,
      starting at or after `from`, that `out` holds where `buf` held the
      target. */
  ghost predicate InReplacedMatch(buf: seq<byte>, out: seq<byte>, target: seq<byte>, replacement: seq<byte>,
                                  from: nat, i: int)
    requires |buf| == |out|
  {
    exists s: nat | from <= s <= i < s + |replacement| :: ReplacedAt(buf, out, target, replacement, s)
  }

  /** Every byte where `out` differs from `buf` lies in a replaced match
      starting at or after `from`. */
  ghost predicate OnlyMatchesChanged(buf: seq<byte>, out: seq<byte>, target: seq<byte>, replacement: seq<byte>, from: nat)
  {
    |buf| == |out| &&
    forall i | 0 <= i < |buf| && Changed(buf, out, i) :: InReplacedMatch(buf, out, target, replacement, from, i)
  }

  /** Whether `out` differs from `buf` at `i`. */
  predicate Changed(buf: seq<byte>, out: seq<byte>, i: int)
  {
    0 <= i < |buf| && i < |out| && out[i] != buf[i]
  }

  /** `buf` holds the target at `s` and `out` the replacement. */
  predicate ReplacedAt(buf: seq<byte>, out: seq<byte>, target: seq<byte>, replacement: seq<byte>, s: nat)
  {
    s + |target| <= |buf| && s + |replacement| <= |out| &&
    buf[s..s + |target|] == target && out[s..s + |replacement|] == replacement
  }

  /** The scan after a match at `pos` goes on from past the string's end. */
  lemma ScanAfterMatch(buf: seq<byte>, target: seq<byte>, replacement: seq<byte>, pos: nat, tryEveryStart: bool, n: nat)
    requires |replacement| <= |target| && Examined(buf, target, pos)
    requires MatchLength(buf, pos, target) == |target| && NullFrom(buf, pos + |target|) == Some(n)
    ensures ScanFrom(buf, target, replacement, pos, tryEveryStart) ==
            ScanFrom(Shifted(buf, pos, target, replacement, n), target, replacement, n + 1, tryEveryStart)
  {
  }

  /** The scan after a mismatch at `pos` goes on from its next start. */
  lemma ScanAfterMismatch(buf: seq<byte>, target: seq<byte>, replacement: seq<byte>, pos: nat, tryEveryStart: bool)
    requires |replacement| <= |target| && Examined(buf, target, pos)
    requires MatchLength(buf, pos, target) < |target|
    ensures ScanFrom(buf, target, replacement, pos, tryEveryStart) ==
            ScanFrom(buf, target, replacement, NextStart(pos, MatchLength(buf, pos, target), tryEveryStart), tryEveryStart)
  {
  }

  /** A later start is also a start at or after an earlier bound. */
  lemma WeakenFrom(buf: seq<byte>, out: seq<byte>, target: seq<byte>, replacement: seq<byte>, from: nat, later: nat)
    requires from <= later && OnlyMatchesChanged(buf, out, target, replacement, later)
    ensures OnlyMatchesChanged(buf, out, target, replacement, from)
  {
    forall i | 0 <= i < |buf| && Changed(buf, out, i)
      ensures InReplacedMatch(buf, out, target, replacement, from, i)
    {
      var s: nat :| later <= s <= i < s + |replacement| && ReplacedAt(buf, out, target, replacement, s);
    }
  }

  /** One equal-length replacement at `pos`, followed by a scan from past
      the string's end that changes bytes only in its own matches. */
  lemma MatchStep(buf: seq<byte>, next: seq<byte>, out: seq<byte>, target: seq<byte>, replacement: seq<byte>, pos: nat, n: nat)
    requires |replacement| == |target| && pos + |target| <= n < |buf|
    requires buf[pos..pos + |target|] == target
    requires next == buf[..pos] + replacement + buf[pos + |target|..]
    requires |out| == |buf| && forall i | 0 <= i < n + 1 :: out[i] == next[i]
    requires OnlyMatchesChanged(next, out, target, replacement, n + 1)
    ensures OnlyMatchesChanged(buf, out, target, replacement, pos)
  {
    forall i | 0 <= i < |buf| && Changed(buf, out, i)
      ensures InReplacedMatch(buf, out, target, replacement, pos, i)
    {
      if i < pos {
        assert false;
      } else if i < pos + |target| {
        assert out[pos..pos + |replacement|] == next[pos..pos + |replacement|] == replacement;
        assert ReplacedAt(buf, out, target, replacement, pos);
      } else {
        assert next[i] == buf[i] && Changed(next, out, i);
        assert InReplacedMatch(next, out, target, replacement, n + 1, i);
        var s: nat :| n + 1 <= s <= i < s + |replacement| && ReplacedAt(next, out, target, replacement, s);
        assert next[s..s + |target|] == buf[s..s + |target|];
        assert ReplacedAt(buf, out, target, replacement, s);
      }
    }
  }

  /** With a replacement as long as the target, every byte the scan from
      `pos` changes lies in a match of the target, at or after `pos`, that
      now holds the replacement; all other bytes keep their value. */
  lemma {:induction false} EqualLengthChangesOnlyMatches(buf: seq<byte>, target: seq<byte>, replacement: seq<byte>,
                                                        pos: nat, tryEveryStart: bool, out: seq<byte>)
    requires |replacement| == |target|
    requires ScanFrom(buf, target, replacement, pos, tryEveryStart) == Ok(out)
    ensures OnlyMatchesChanged(buf, out, target, replacement, pos)
    decreases |buf| - pos, 1
  {
    if Examined(buf, target, pos) {
      if MatchLength(buf, pos, target) < |target| {
        MismatchCase(buf, target, replacement, pos, tryEveryStart, out);
      } else {
        var n := NullFrom(buf, pos + |target|).value;
        MatchLengthMeans(buf, pos, target);
        NullFromMeans(buf, pos + |target|);
        ScanAfterMatch(buf, target, replacement, pos, tryEveryStart, n);
        ShiftedEqualLength(buf, pos, target, replacement, n);
        MatchCase(buf, Shifted(buf, pos, target, replacement, n), target, replacement, pos, tryEveryStart, n, out);
      }
    }
  }

  /** The mismatch case: the scan goes on from the next start. */
  lemma {:induction false} MismatchCase(buf: seq<byte>, target: seq<byte>, replacement: seq<byte>,
                                       pos: nat, tryEveryStart: bool, out: seq<byte>)
    requires |replacement| == |target| && Examined(buf, target, pos)
    requires MatchLength(buf, pos, target) < |target|
    requires ScanFrom(buf, target, replacement, pos, tryEveryStart) == Ok(out)
    ensures OnlyMatchesChanged(buf, out, target, replacement, pos)
    decreases |buf| - pos, 0
  {
    var later := NextStart(pos, MatchLength(buf, pos, target), tryEveryStart);
    ScanAfterMismatch(buf, target, replacement, pos, tryEveryStart);
    EqualLengthChangesOnlyMatches(buf, target, replacement, later, tryEveryStart, out);
    WeakenFrom(buf, out, target, replacement, pos, later);
  }

  /** The match case: the replacement is written, giving `next`, and the
      scan goes on after the string's terminator at `n`. */
  lemma {:induction false} MatchCase(buf: seq<byte>, next: seq<byte>, target: seq<byte>, replacement: seq<byte>,
                                    pos: nat, tryEveryStart: bool, n: nat, out: seq<byte>)
    requires |replacement| == |target| && pos + |target| <= n < |buf|
    requires buf[pos..pos + |target|] == target
    requires next == buf[..pos] + replacement + buf[pos + |target|..]
    requires ScanFrom(next, target, replacement, n + 1, tryEveryStart) == Ok(out)
    ensures OnlyMatchesChanged(buf, out, target, replacement, pos)
    decreases |buf| - pos, 0
  {
    EqualLengthChangesOnlyMatches(next, target, replacement, n + 1, tryEveryStart, out);
    MatchCaseFinish(buf, next, target, replacement, pos, tryEveryStart, n, out);
  }

  /** The match case once the scan from `n + 1` is known to change only
      matches. */
  lemma MatchCaseFinish(buf: seq<byte>, next: seq<byte>, target: seq<byte>, replacement: seq<byte>,
                        pos: nat, tryEveryStart: bool, n: nat, out: seq<byte>)
    requires |replacement| == |target| && pos + |target| <= n < |buf|
    requires buf[pos..pos + |target|] == target
    requires next == buf[..pos] + replacement + buf[pos + |target|..]
    requires ScanFrom(next, target, replacement, n + 1, tryEveryStart) == Ok(out)
    requires OnlyMatchesChanged(next, out, target, replacement, n + 1)
    ensures OnlyMatchesChanged(buf, out, target, replacement, pos)
  {
    ScanKeepsPrefix(next, target, replacement, n + 1, tryEveryStart);
    assert |next| == |buf| == |out|;
    assert forall i | 0 <= i < n + 1 :: out[i] == next[i];
    MatchStep(buf, next, out, target, replacement, pos, n);
  }

  /** `target` occurs in `buf` at `pos`. */
  predicate OccursAt(buf: seq<byte>, pos: nat, target: seq<byte>)
  {
    pos + |target| <= |buf| && buf[pos..pos + |target|] == target
  }

  /** Trying every start, the scan walks over starts where the target does
      not occur without changing anything. */
  lemma {:induction false} MismatchesBefore(buf: seq<byte>, target: seq<byte>, replacement: seq<byte>, q: nat, p: nat)
    requires |replacement| <= |target| && q <= p && Examined(buf, target, p)
    requires forall k | q <= k < p :: !OccursAt(buf, k, target)
    ensures ScanFrom(buf, target, replacement, q, true) == ScanFrom(buf, target, replacement, p, true)
    decreases p - q
  {
    if q < p {
      assert !OccursAt(buf, q, target);
      MatchLengthMeans(buf, q, target);
      ScanAfterMismatch(buf, target, replacement, q, true);
      MismatchesBefore(buf, target, replacement, q + 1, p);
    }
  }

  /** A scan reaching a start where the target occurs keeps the bytes
      before it and writes the replacement there, unless a later string
      runs off the end. */
  lemma MatchReplaced(buf: seq<byte>, target: seq<byte>, replacement: seq<byte>, p: nat, tryEveryStart: bool)
    requires |replacement| <= |target| && Examined(buf, target, p) && OccursAt(buf, p, target)
    ensures var r := ScanFrom(buf, target, replacement, p, tryEveryStart);
      r.Ok? ==> r.value[..p] == buf[..p] && r.value[p..p + |replacement|] == replacement
  {
    var n := NullFrom(buf, p + |target|);
    if n.Some? {
      MatchLengthMeans(buf, p, target);
      ScanAfterMatch(buf, target, replacement, p, tryEveryStart, n.value);
      ShiftedKept(buf, target, replacement, p, tryEveryStart, n.value);
    } else {
      UnterminatedMatchThrows(buf, target, replacement, p, tryEveryStart);
    }
  }

  /** A match whose string has no terminator makes the scan throw. */
  lemma UnterminatedMatchThrows(buf: seq<byte>, target: seq<byte>, replacement: seq<byte>, p: nat, tryEveryStart: bool)
    requires |replacement| <= |target| && Examined(buf, target, p) && OccursAt(buf, p, target)
    requires NullFrom(buf, p + |target|).None?
    ensures ScanFrom(buf, target, replacement, p, tryEveryStart) == Err(IndexOutOfBounds)
  {
    MatchLengthMeans(buf, p, target);
  }

  /** The scan after the shift keeps what the shift wrote. */
  lemma ShiftedKept(buf: seq<byte>, target: seq<byte>, replacement: seq<byte>, p: nat, tryEveryStart: bool, n: nat)
    requires |replacement| <= |target| && p + |target| <= n < |buf|
    ensures var r := ScanFrom(Shifted(buf, p, target, replacement, n), target, replacement, n + 1, tryEveryStart);
      r.Ok? ==> r.value[..p] == buf[..p] && r.value[p..p + |replacement|] == replacement
  {
    var next := Shifted(buf, p, target, replacement, n);
    ShiftedOutside(buf, p, target, replacement, n);
    ScanKeepsPrefix(next, target, replacement, n + 1, tryEveryStart);
    var r := ScanFrom(next, target, replacement, n + 1, tryEveryStart);
    if r.Ok? {
      assert r.value[..p] == next[..p] == buf[..p];
      assert r.value[p..p + |replacement|] == next[p..p + |replacement|];
    }
  }

  /** The corrected scan replaces the first occurrence of the target (one
      the scan examines): the bytes before it are kept and it holds the
      replacement, unless a later string runs off the end; if its own
      string has no terminator the scan throws. */
  lemma FirstOccurrenceReplaced(buf: seq<byte>, target: seq<byte>, replacement: seq<byte>, p: nat)
    requires |replacement| <= |target| && Examined(buf, target, p) && OccursAt(buf, p, target)
    requires forall k | 0 <= k < p :: !OccursAt(buf, k, target)
    ensures var r := Replace(buf, target, replacement);
      (r.Ok? ==> r.value[..p] == buf[..p] && r.value[p..p + |replacement|] == replacement) &&
      (NullFrom(buf, p + |target|).None? ==> r == Err(IndexOutOfBounds))
  {
    MismatchesBefore(buf, target, replacement, 0, p);
    MatchReplaced(buf, target, replacement, p, true);
    if NullFrom(buf, p + |target|).None? {
      UnterminatedMatchThrows(buf, target, replacement, p, true);
    }
  }

  /** The bytes of a Java string encoded as US-ASCII: a character outside
      ASCII becomes '?'. */
  function Ascii(s: string): (r: seq<byte>)
    ensures |r| == |s|
    ensures forall i | 0 <= i < |s| :: s[i] < 128 as char ==> r[i] == s[i] as int
  {
    seq(|s|, i requires 0 <= i < |s| => if s[i] < 128 as char then s[i] as int else '?' as int)
  }

  /** The JNI symbol prefix of SQLite's natives and its relocated form. */
  const JNI_TARGET: seq<byte> := Ascii("org_sqlite")
  const JNI_REPLACEMENT: seq<byte> := Ascii("dh_1sqlite")

  /** The class path inside the natives and its relocated form. */
  const PATH_TARGET: seq<byte> := Ascii("org/sqlite")
  const PATH_REPLACEMENT: seq<byte> := Ascii("dh_sqlite")

  /** A string the as-written scan misses: "org_sqlite" at offset 1, right
      after an 'o' that starts a partial match at offset 0. The scan resumes
      at offset 2, so the output equals the input. */
  lemma MissedOccurrence()
    ensures var buf := Ascii("oorg_sqlite") + [0, 0];
      OccursAt(buf, 1, JNI_TARGET) && ReplaceAsWritten(buf, JNI_TARGET, JNI_REPLACEMENT) == Ok(buf)
  {
    var buf := Ascii("oorg_sqlite") + [0, 0];
    PartialMatchAtZero(buf);
    ScanAfterMismatch(buf, JNI_TARGET, JNI_REPLACEMENT, 0, false);
    assert !Examined(buf, JNI_TARGET, 2);
  }

  /** In that string the target occurs at offset 1, and the match at
      offset 0 stops after one byte. */
  lemma PartialMatchAtZero(buf: seq<byte>)
    requires buf == Ascii("oorg_sqlite") + [0, 0]
    ensures |buf| == 13 && |JNI_TARGET| == 10 && |JNI_REPLACEMENT| == 10
    ensures OccursAt(buf, 1, JNI_TARGET) && Examined(buf, JNI_TARGET, 0)
    ensures MatchLength(buf, 0, JNI_TARGET) == 1
  {
    var t := JNI_TARGET;
    assert buf[0] == 'o' as int && buf[1] == 'o' as int && t[0] == 'o' as int && t[1] == 'r' as int;
    assert MatchFrom(buf, 0, t, 1) == 1;
    assert buf[1..11] == t;
  }

  /** The corrected scan replaces that occurrence. */
  lemma OccurrenceFound()
    ensures var buf := Ascii("oorg_sqlite") + [0, 0];
      Replace(buf, JNI_TARGET, JNI_REPLACEMENT) == Ok(Ascii("o") + JNI_REPLACEMENT + [0, 0])
  {
    var buf := Ascii("oorg_sqlite") + [0, 0];
    var (t, rep) := (JNI_TARGET, JNI_REPLACEMENT);
    PartialMatchAtZero(buf);
    ScanAfterMismatch(buf, t, rep, 0, true);
    MatchLengthMeans(buf, 1, t);
    assert NullFrom(buf, 11) == Some(11);
    ScanAfterMatch(buf, t, rep, 1, true, 11);
    ShiftedEqualLength(buf, 1, t, rep, 11);
    var next := Shifted(buf, 1, t, rep, 11);
    assert !Examined(next, t, 12);
    assert buf[..1] == Ascii("o") && buf[11..] == [0, 0];
  }

  /** The buffer part-way through the move of a match at `pos`: the
      replacement is in place and the bytes before `e` have been moved left
      by the length difference; nothing from `e - gap` on is written yet. */
  function Moved(buf: seq<byte>, pos: nat, target: seq<byte>, replacement: seq<byte>, e: nat): (r: seq<byte>)
    requires |replacement| <= |target| && pos + |target| <= e <= |buf|
    ensures |r| == |buf|
  {
    var gap := |target| - |replacement|;
    seq(|buf|, i requires 0 <= i < |buf| =>
      if i < pos then buf[i]
      else if i < pos + |replacement| then replacement[i - pos]
      else if i < e - gap then buf[i + gap]
      else buf[i])
  }

  /** Before any byte is moved, only the replacement has been copied in. */
  lemma MovedStart(buf: seq<byte>, pos: nat, target: seq<byte>, replacement: seq<byte>)
    requires |replacement| <= |target| && pos + |target| <= |buf|
    ensures Moved(buf, pos, target, replacement, pos + |target|) ==
            buf[..pos] + replacement + buf[pos + |replacement|..]
  {
    var r := Moved(buf, pos, target, replacement, pos + |target|);
    var e := buf[..pos] + replacement + buf[pos + |replacement|..];
    assert |r| == |e|;
    forall i | 0 <= i < |r|
      ensures r[i] == e[i]
    {
    }
  }

  /** Moving one more byte: the byte at `e` goes to `e - gap`. */
  lemma MovedStep(buf: seq<byte>, pos: nat, target: seq<byte>, replacement: seq<byte>, e: nat)
    requires |replacement| <= |target| && pos + |target| <= e < |buf|
    ensures var m := Moved(buf, pos, target, replacement, e);
      var gap := |target| - |replacement|;
      m[e] == buf[e] && m[e - gap := m[e]] == Moved(buf, pos, target, replacement, e + 1)
  {
  }

  /** A null written after the moved bytes gives the shifted buffer. */
  lemma MovedThenNull(buf: seq<byte>, pos: nat, target: seq<byte>, replacement: seq<byte>, n: nat)
    requires |replacement| <= |target| && pos + |target| <= n < |buf|
    ensures Moved(buf, pos, target, replacement, n)[n - (|target| - |replacement|) := 0] ==
            Shifted(buf, pos, target, replacement, n)
  {
  }

  /** The first null from `from` is at `n` when `buf[n]` is null and none
      comes before it, and there is none when no byte from `from` on is
      null. */
  lemma {:induction false} NullFromFinds(buf: seq<byte>, from: nat, n: nat)
    requires from <= n <= |buf| && forall i | from <= i < n :: buf[i] != 0
    ensures n < |buf| && buf[n] == 0 ==> NullFrom(buf, from) == Some(n)
    ensures n == |buf| ==> NullFrom(buf, from) == None
    decreases n - from
  {
    if from < n {
      NullFromFinds(buf, from + 1, n);
    }
  }

  /** The copy of the replacement over a match at `pos` and the `while`
      that moves the rest of the string left, up to and including its
      terminator; `None` when the string runs off the end of the array. */
  method CopyAndMove(orig: seq<byte>, pos: nat, target: seq<byte>, replacement: seq<byte>)
    returns (moved: Option<seq<byte>>, endPos: nat)
    requires |replacement| <= |target| && pos + |target| <= |orig|
    ensures moved.None? <==> NullFrom(orig, pos + |target|).None?
    ensures moved.Some? ==>
      NullFrom(orig, pos + |target|) == Some(endPos) && moved.value == Shifted(orig, pos, target, replacement, endPos)
  {
    MovedStart(orig, pos, target, replacement);
    var buf := orig[..pos] + replacement + orig[pos + |replacement|..];
    var startPos := pos + |replacement|;
    endPos := pos + |target|;
    while endPos < |buf| && buf[endPos] != 0
      invariant |buf| == |orig|
      invariant pos + |target| <= endPos <= |orig| && startPos == endPos - (|target| - |replacement|)
      invariant buf == Moved(orig, pos, target, replacement, endPos)
      invariant forall i | pos + |target| <= i < endPos :: orig[i] != 0
      decreases |orig| - endPos
    {
      MovedStep(orig, pos, target, replacement, endPos);
      buf := buf[startPos := buf[endPos]];
      endPos := endPos + 1;
      startPos := startPos + 1;
    }
    NullFromFinds(orig, pos + |target|, endPos);
    if endPos == |buf| {
      return None, endPos;
    }
    MovedStep(orig, pos, target, replacement, endPos);
    MovedThenNull(orig, pos, target, replacement, endPos);
    buf := buf[startPos := 0];
    return Some(buf), endPos;
  }

  /** `replaceInNullTerminatedStrings` step by step, on the array's
      contents: the `for` loop over start positions, the inner `while` that
      matches, then the copy and move. `tryEveryStart` selects the
      corrected resume point after a partial match. */
  method ReplaceInByteArray(byteArray: seq<byte>, target: seq<byte>, replacement: seq<byte>, tryEveryStart: bool)
    returns (r: Result<seq<byte>>)
    ensures !tryEveryStart ==> r == ReplaceAsWritten(byteArray, target, replacement)
    ensures tryEveryStart ==> r == Replace(byteArray, target, replacement)
  {
    if |target| < |replacement| {
      return Err(IllegalArgument("Replacement must be the same length or shorter than the target."));
    }
    var buf := byteArray;
    var endPos := 0;
    while endPos < |buf| - |target| - 1
      invariant |buf| == |byteArray|
      invariant ScanFrom(buf, target, replacement, endPos, tryEveryStart) ==
                ScanFrom(byteArray, target, replacement, 0, tryEveryStart)
      decreases |buf| - endPos
    {
      var startPos := endPos;
      var targetPos := 0;
      while targetPos < |target| && buf[endPos] == target[targetPos]
        invariant targetPos <= |target| && endPos == startPos + targetPos
        invariant MatchFrom(buf, startPos, target, targetPos) == MatchLength(buf, startPos, target)
      {
        targetPos := targetPos + 1;
        endPos := endPos + 1;
      }
      if targetPos == |target| {
        var moved, n := CopyAndMove(buf, startPos, target, replacement);
        if moved.None? {
          return Err(IndexOutOfBounds);
        }
        ScanAfterMatch(buf, target, replacement, startPos, tryEveryStart, n);
        buf := moved.value;
        endPos := n;
      } else {
        ScanAfterMismatch(buf, target, replacement, startPos, tryEveryStart);
        if tryEveryStart {
          endPos := startPos;
        }
      }
      endPos := endPos + 1;
    }
    return Ok(buf);
  }

  /** `processNative` without its cache and the symbol-table rewrite that
      follows: the JNI prefix is renamed in place, then the class path is
      shortened, each by the scan as written. Neither replacement is longer
      than its target, so only a string without a terminator can make it
      fail. */
  function ProcessNative(content: seq<byte>): (r: Result<seq<byte>>)
    ensures r.Err? ==> r.error == IndexOutOfBounds
    ensures r.Ok? ==> |r.value| == |content|
  {
    var first := ReplaceAsWritten(content, JNI_TARGET, JNI_REPLACEMENT);
    if first.Err? then first else ReplaceAsWritten(first.value, PATH_TARGET, PATH_REPLACEMENT)
  }

  /** The same two passes with the corrected scan. */
  function ProcessNativeCorrected(content: seq<byte>): (r: Result<seq<byte>>)
    ensures r.Err? ==> r.error == IndexOutOfBounds
    ensures r.Ok? ==> |r.value| == |content|
  {
    var first := Replace(content, JNI_TARGET, JNI_REPLACEMENT);
    if first.Err? then first else Replace(first.value, PATH_TARGET, PATH_REPLACEMENT)
  }

  /** The first pass of `processNative`, as written and corrected, changes
      only bytes inside the occurrences of "org_sqlite" it renamed to
      "dh_1sqlite". */
  lemma FirstPassChangesOnlyMatches(content: seq<byte>)
    ensures var first := ReplaceAsWritten(content, JNI_TARGET, JNI_REPLACEMENT);
      first.Ok? ==> OnlyMatchesChanged(content, first.value, JNI_TARGET, JNI_REPLACEMENT, 0)
    ensures var first := Replace(content, JNI_TARGET, JNI_REPLACEMENT);
      first.Ok? ==> OnlyMatchesChanged(content, first.value, JNI_TARGET, JNI_REPLACEMENT, 0)
  {
    var written := ReplaceAsWritten(content, JNI_TARGET, JNI_REPLACEMENT);
    if written.Ok? {
      EqualLengthChangesOnlyMatches(content, JNI_TARGET, JNI_REPLACEMENT, 0, false, written.value);
    }
    var first := Replace(content, JNI_TARGET, JNI_REPLACEMENT);
    if first.Ok? {
      EqualLengthChangesOnlyMatches(content, JNI_TARGET, JNI_REPLACEMENT, 0, true, first.value);
    }
  }

  /** In the string of `MissedOccurrence` the class path's match at offset
      0 also stops after one byte. */
  lemma PathPartialMatchAtZero(buf: seq<byte>)
    requires buf == Ascii("oorg_sqlite") + [0, 0]
    ensures |buf| == 13 && |PATH_TARGET| == 10 && |PATH_REPLACEMENT| == 9
    ensures Examined(buf, PATH_TARGET, 0) && MatchLength(buf, 0, PATH_TARGET) == 1
  {
    var t := PATH_TARGET;
    assert buf[0] == 'o' as int && buf[1] == 'o' as int && t[0] == 'o' as int && t[1] == 'r' as int;
    assert MatchFrom(buf, 0, t, 1) == 1;
  }

  /** `processNative` as written leaves that string untouched, so the
      library keeps a symbol the corrected passes rename. */
  lemma ProcessNativeMissesOccurrence()
    ensures var buf := Ascii("oorg_sqlite") + [0, 0];
      ProcessNative(buf) == Ok(buf) && ProcessNativeCorrected(buf).Ok? && ProcessNativeCorrected(buf) != Ok(buf)
  {
    var buf := Ascii("oorg_sqlite") + [0, 0];
    MissedOccurrence();
    PathPartialMatchAtZero(buf);
    ScanAfterMismatch(buf, PATH_TARGET, PATH_REPLACEMENT, 0, false);
    assert !Examined(buf, PATH_TARGET, 2);
    OccurrenceFound();
    var once := Ascii("o") + JNI_REPLACEMENT + [0, 0];
    CorrectedPathPass(once);
    assert once[1] != buf[1];
  }

  /** The corrected class-path pass finds nothing in the renamed string. */
  lemma CorrectedPathPass(once: seq<byte>)
    requires once == Ascii("o") + JNI_REPLACEMENT + [0, 0]
    ensures Replace(once, PATH_TARGET, PATH_REPLACEMENT) == Ok(once)
  {
    var t := PATH_TARGET;
    assert |once| == 13 && |t| == 10;
    assert once[0] == 'o' as int && once[1] == 'd' as int && t[0] == 'o' as int && t[1] == 'r' as int;
    assert MatchFrom(once, 0, t, 1) == 1;
    ScanAfterMismatch(once, t, PATH_REPLACEMENT, 0, true);
    assert MatchFrom(once, 1, t, 0) == 0;
    ScanAfterMismatch(once, t, PATH_REPLACEMENT, 1, true);
    assert !Examined(once, t, 2);
  }
}
