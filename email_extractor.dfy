/**
 * The email-address extractor of the WhatsApp service: the leftmost match of
 * the fixed pattern  [a-zA-Z0-9._%+-]+@[a-zA-Z0-9.-]+\.[a-zA-Z]{2,}  in a text.
 *
 * `ExtractEmailAddress` follows the backtracking regex engine: it tries start
 * positions from left to right; at each one the greedy local-part run must be
 * followed by '@', and the greedy domain run is shortened one character at a
 * time until a '.' followed by two letters is found, after which the letter
 * run is taken greedily. The declarative partner is `IsEmail` (the language of
 * the pattern) and `IsLeftmostLongest`; `ExtractEmailAddressCorrect` connects
 * the two.
 */
module EmailExtractor {
  import opened Interfaces
  import Numerals

  predicate IsLetter(c: char) {
    ('a' <= c <= 'z') || ('A' <= c <= 'Z')
  }

  /** [a-zA-Z0-9._%+-] */
  predicate IsLocalChar(c: char) {
    IsLetter(c) || Numerals.IsDigit(c) || c == '.' || c == '_' || c == '%' || c == '+' || c == '-'
  }

  /** [a-zA-Z0-9.-] */
  predicate IsDomainChar(c: char) {
    IsLetter(c) || Numerals.IsDigit(c) || c == '.' || c == '-'
  }

  /** `t` is  local '@' domain '.' tld  with the '@' at `a` and the last '.' at `p`. */
  predicate EmailShape(t: string, a: int, p: int) {
    && 0 < a && a + 2 <= p && p + 3 <= |t|
    && (forall k :: 0 <= k < a ==> IsLocalChar(t[k]))
    && t[a] == '@'
    && (forall k :: a < k < p ==> IsDomainChar(t[k]))
    && t[p] == '.'
    && (forall k :: p < k < |t| ==> IsLetter(t[k]))
  }

  /** The whole of `t` matches the pattern. */
  ghost predicate IsEmail(t: string) {
    exists a, p :: EmailShape(t, a, p)
  }

  /** s[i..j] is the match a leftmost-first regex search reports: no match starts
      further left, and no longer match starts at i. */
  ghost predicate IsLeftmostLongest(s: string, i: int, j: int) {
    && 0 <= i <= j <= |s|
    && IsEmail(s[i..j])
    && (forall i', j' :: 0 <= i' <= j' <= |s| && IsEmail(s[i'..j']) ==> i <= i')
    && (forall j' :: i <= j' <= |s| && IsEmail(s[i..j']) ==> j' <= j)
  }

  /** Greedy run of local-part characters from `i`: the first index at or after
      `i` holding no local-part character. */
  function LocalRunEnd(s: string, i: nat): (e: nat)
    requires i <= |s|
    ensures i <= e <= |s|
    ensures forall k :: i <= k < e ==> IsLocalChar(s[k])
    ensures e < |s| ==> !IsLocalChar(s[e])
    decreases |s| - i
  {
    if i == |s| || !IsLocalChar(s[i]) then i else LocalRunEnd(s, i + 1)
  }

  function DomainRunEnd(s: string, i: nat): (e: nat)
    requires i <= |s|
    ensures i <= e <= |s|
    ensures forall k :: i <= k < e ==> IsDomainChar(s[k])
    ensures e < |s| ==> !IsDomainChar(s[e])
    decreases |s| - i
  {
    if i == |s| || !IsDomainChar(s[i]) then i else DomainRunEnd(s, i + 1)
  }

  function LetterRunEnd(s: string, i: nat): (e: nat)
    requires i <= |s|
    ensures i <= e <= |s|
    ensures forall k :: i <= k < e ==> IsLetter(s[k])
    ensures e < |s| ==> !IsLetter(s[e])
    decreases |s| - i
  {
    if i == |s| || !IsLetter(s[i]) then i else LetterRunEnd(s, i + 1)
  }

  /** Position `p` can hold the  \.[a-zA-Z]{2,}  that ends the pattern. */
  predicate TldStartsAt(s: string, p: int) {
    0 <= p && p + 2 < |s| && s[p] == '.' && IsLetter(s[p + 1]) && IsLetter(s[p + 2])
  }

  /** Backtracking of the domain quantifier: the domain is s[d0..p), tried
      with p going down from the end of the greedy run to d0 + 1. Returns the
      end of the match. */
  function Backtrack(s: string, d0: nat, p: nat): (r: Option<nat>)
    requires d0 <= p <= |s|
    ensures r.Some? ==> d0 < r.value <= |s|
    decreases p
  {
    if p <= d0 then None
    else if TldStartsAt(s, p) then Some(LetterRunEnd(s, p + 1))
    else Backtrack(s, d0, p - 1)
  }

  /** Backtracking succeeds exactly at a position where a tld can start, and
      fails only when no position in the range can start one. */
  lemma {:induction false} BacktrackFinds(s: string, d0: nat, p: nat)
    requires d0 <= p <= |s|
    ensures Backtrack(s, d0, p).Some? ==>
      exists q :: d0 < q <= p && TldStartsAt(s, q) && Backtrack(s, d0, p).value == LetterRunEnd(s, q + 1)
    ensures Backtrack(s, d0, p).None? ==> forall q :: d0 < q <= p ==> !TldStartsAt(s, q)
    decreases p
  {
    if p > d0 && !TldStartsAt(s, p) {
      BacktrackFinds(s, d0, p - 1);
    }
  }

  /** The engine's attempt at one start position: the end of the match found
      there, if any. Backtracking the local-part quantifier cannot help, since
      a shorter run is followed by a local-part character, never by '@'. */
  function MatchAt(s: string, start: nat): (r: Option<nat>)
    requires start <= |s|
    ensures r.Some? ==> start < r.value <= |s|
  {
    var at := LocalRunEnd(s, start);
    if at == start || at == |s| || s[at] != '@' then None
    else Backtrack(s, at + 1, DomainRunEnd(s, at + 1))
  }

  /** Leftmost-first search from `start` on. */
  function SearchFrom(s: string, start: nat): Option<string>
    requires start <= |s|
    decreases |s| - start
  {
    match MatchAt(s, start)
    case Some(end) => Some(s[start..end])
    case None => if start == |s| then None else SearchFrom(s, start + 1)
  }

  /** `Regex.Match(text, pattern)`: the matched text, or null (None). */
  function ExtractEmailAddress(text: string): Option<string> {
    SearchFrom(text, 0)
  }

  // ---------------------------------------------------------------------
  // Proofs

  /** Every match the engine reports has the shape of the pattern. */
  lemma MatchAtSound(s: string, start: nat)
    requires start <= |s|
    ensures MatchAt(s, start).Some? ==>
      var end := MatchAt(s, start).value;
      start < end <= |s| && IsEmail(s[start..end])
  {
    if MatchAt(s, start).Some? {
      var end := MatchAt(s, start).value;
      var at := LocalRunEnd(s, start);
      var e := DomainRunEnd(s, at + 1);
      assert at != start && at < |s| && s[at] == '@' && Backtrack(s, at + 1, e) == Some(end);
      BacktrackFinds(s, at + 1, e);
      var q :| at + 1 < q <= e && TldStartsAt(s, q) && end == LetterRunEnd(s, q + 1);
      LettersPastDot(s, q);
      ShapeOfSlice(s, start, end, at, q);
    }
  }

  /** The letter run after a tld's dot covers its first two letters. */
  lemma LettersPastDot(s: string, q: nat)
    requires TldStartsAt(s, q)
    ensures q + 3 <= LetterRunEnd(s, q + 1)
  {
    assert LetterRunEnd(s, q + 1) == LetterRunEnd(s, q + 2);
    assert LetterRunEnd(s, q + 2) == LetterRunEnd(s, q + 3);
  }

  /** The conditions of the pattern, read off positions of `s`, give the
      shape of the slice s[i..j]. */
  lemma ShapeOfSlice(s: string, i: nat, j: nat, at: nat, q: nat)
    requires i < at && at + 2 <= q && q + 3 <= j <= |s|
    requires forall k :: i <= k < at ==> IsLocalChar(s[k])
    requires s[at] == '@'
    requires forall k :: at < k < q ==> IsDomainChar(s[k])
    requires s[q] == '.'
    requires forall k :: q < k < j ==> IsLetter(s[k])
    ensures IsEmail(s[i..j])
  {
    var t := s[i..j];
    var a, p := at - i, q - i;
    assert forall k :: 0 <= k < |t| ==> t[k] == s[i + k];
    assert forall k :: 0 <= k < a ==> IsLocalChar(t[k]) by {
      forall k | 0 <= k < a ensures IsLocalChar(t[k]) { assert t[k] == s[i + k]; }
    }
    assert forall k :: a < k < p ==> IsDomainChar(t[k]) by {
      forall k | a < k < p ensures IsDomainChar(t[k]) { assert t[k] == s[i + k]; }
    }
    assert forall k :: p < k < |t| ==> IsLetter(t[k]) by {
      forall k | p < k < |t| ensures IsLetter(t[k]) { assert t[k] == s[i + k]; }
    }
    assert EmailShape(t, a, p);
  }

  /** Backtracking from `p` finds the right-most dot position at or below `p`;
      so if a valid dot position `q0` exists it finds one at `q0` or beyond. */
  lemma {:induction false} BacktrackFindsRightmost(s: string, d0: nat, p: nat, q0: nat)
    requires d0 < q0 <= p <= |s|
    requires TldStartsAt(s, q0)
    ensures Backtrack(s, d0, p).Some?
    ensures exists q :: q0 <= q <= p && TldStartsAt(s, q) && Backtrack(s, d0, p).value == LetterRunEnd(s, q + 1)
    decreases p
  {
    if TldStartsAt(s, p) {
      assert Backtrack(s, d0, p).value == LetterRunEnd(s, p + 1);
    } else {
      assert q0 < p;
      BacktrackFindsRightmost(s, d0, p - 1, q0);
    }
  }

  /** The converse of ShapeOfSlice: the shape of s[i..j] read back as
      conditions on positions of `s`. */
  lemma SliceOfShape(s: string, i: nat, j: nat, a: int, p: int)
    requires i <= j <= |s|
    requires EmailShape(s[i..j], a, p)
    ensures i + p + 3 <= j
    ensures forall k :: i <= k < i + a ==> IsLocalChar(s[k])
    ensures s[i + a] == '@'
    ensures forall k :: i + a < k < j ==> IsDomainChar(s[k])
    ensures TldStartsAt(s, i + p)
    ensures forall k :: i + p < k < j ==> IsLetter(s[k])
  {
    var t := s[i..j];
    assert forall k :: i <= k < j ==> s[k] == t[k - i];
    forall k | i + a < k < j ensures IsDomainChar(s[k]) {
      assert s[k] == t[k - i];
      if k - i > p { assert IsLetter(t[k - i]); }
    }
  }

  /** Every substring matching the pattern is found by the engine at its start,
      and the engine's match there is at least as long. */
  lemma MatchAtComplete(s: string, i: nat, j: nat)
    requires i <= j <= |s|
    requires IsEmail(s[i..j])
    ensures MatchAt(s, i).Some? && j <= MatchAt(s, i).value
  {
    var at, q0 := CandidateParts(s, i, j);
    EngineReachesEnd(s, i, j, at, q0);
  }

  lemma EngineReachesEnd(s: string, i: nat, j: nat, at: nat, q0: nat)
    requires i < at && at + 1 < q0 && q0 + 3 <= j <= |s|
    requires LocalRunEnd(s, i) == at && s[at] == '@'
    requires j <= DomainRunEnd(s, at + 1)
    requires TldStartsAt(s, q0) && forall k :: q0 < k < j ==> IsLetter(s[k])
    ensures MatchAt(s, i).Some? && j <= MatchAt(s, i).value
  {
    var end := BacktrackReachesEnd(s, at + 1, DomainRunEnd(s, at + 1), q0, j);
    MatchAtUnfold(s, i, at, end);
  }

  /** Where the engine's runs stop on a substring that matches: the local run
      stops exactly at its '@' (`at`), the domain run covers the rest of it,
      and its tld starts at `q0`. */
  lemma CandidateParts(s: string, i: nat, j: nat) returns (at: nat, q0: nat)
    requires i <= j <= |s|
    requires IsEmail(s[i..j])
    ensures i < at && at + 1 < q0 && q0 + 3 <= j
    ensures LocalRunEnd(s, i) == at && s[at] == '@'
    ensures j <= DomainRunEnd(s, at + 1)
    ensures TldStartsAt(s, q0) && forall k :: q0 < k < j ==> IsLetter(s[k])
  {
    var a, p :| EmailShape(s[i..j], a, p);
    SliceOfShape(s, i, j, a, p);
    LocalRunEndIsFirstStop(s, i, i + a);
    DomainRunEndCovers(s, i + a + 1, j);
    at, q0 := i + a, i + p;
  }

  /** The engine's attempt at `start` when the local run stops at an '@'. */
  lemma MatchAtUnfold(s: string, start: nat, at: nat, end: nat)
    requires start < at < |s| && s[at] == '@' && LocalRunEnd(s, start) == at
    requires Backtrack(s, at + 1, DomainRunEnd(s, at + 1)) == Some(end)
    ensures MatchAt(s, start) == Some(end)
  {
  }

  /** If the candidate's tld starts at `q0` and its letters reach `j`, the
      backtracking search over the domain run s[d0..e) ends its match at `j`
      or later. */
  lemma BacktrackReachesEnd(s: string, d0: nat, e: nat, q0: nat, j: nat) returns (end: nat)
    requires d0 < q0 && q0 + 3 <= j <= e <= |s|
    requires TldStartsAt(s, q0)
    requires forall k :: q0 < k < j ==> IsLetter(s[k])
    ensures Backtrack(s, d0, e) == Some(end) && j <= end
  {
    BacktrackFindsRightmost(s, d0, e, q0);
    var q :| q0 <= q <= e && TldStartsAt(s, q) && Backtrack(s, d0, e).value == LetterRunEnd(s, q + 1);
    end := Backtrack(s, d0, e).value;
    if q == q0 {
      LetterRunEndCovers(s, q0 + 1, j);
    } else {
      // s[q] is a '.', so it lies beyond the letters of the candidate's tld
      DotOutsideLetters(s, q0, j, q);
    }
  }

  /** A '.' after `lo` lies at or beyond the end of a letter run s(lo..j). */
  lemma DotOutsideLetters(s: string, lo: int, j: int, q: nat)
    requires lo < q < |s| && s[q] == '.'
    requires forall k :: lo < k < j && 0 <= k < |s| ==> IsLetter(s[k])
    ensures j <= q
  {
  }

  lemma {:induction false} LocalRunEndIsFirstStop(s: string, i: nat, stop: nat)
    requires i <= stop < |s|
    requires forall k :: i <= k < stop ==> IsLocalChar(s[k])
    requires !IsLocalChar(s[stop])
    ensures LocalRunEnd(s, i) == stop
    decreases stop - i
  {
    if i < stop { LocalRunEndIsFirstStop(s, i + 1, stop); }
  }

  lemma {:induction false} DomainRunEndCovers(s: string, i: nat, j: nat)
    requires i <= j <= |s|
    requires forall k :: i <= k < j ==> IsDomainChar(s[k])
    ensures j <= DomainRunEnd(s, i)
    decreases j - i
  {
    if i < j { DomainRunEndCovers(s, i + 1, j); }
  }

  lemma {:induction false} LetterRunEndCovers(s: string, i: nat, j: nat)
    requires i <= j <= |s|
    requires forall k :: i <= k < j ==> IsLetter(s[k])
    ensures j <= LetterRunEnd(s, i)
    decreases j - i
  {
    if i < j { LetterRunEndCovers(s, i + 1, j); }
  }

  /** The search from `start` reports the engine's match at the first start
      position where the engine succeeds, and nothing if there is none. */
  lemma {:induction false} SearchFromFirst(s: string, start: nat)
    requires start <= |s|
    ensures SearchFrom(s, start).None? ==> forall i :: start <= i <= |s| ==> MatchAt(s, i).None?
    ensures SearchFrom(s, start).Some? ==>
      exists i :: start <= i <= |s| && MatchAt(s, i).Some?
        && i <= MatchAt(s, i).value <= |s|
        && SearchFrom(s, start).value == s[i..MatchAt(s, i).value]
        && forall i' :: start <= i' < i ==> MatchAt(s, i').None?
    decreases |s| - start
  {
    MatchAtSound(s, start);
    if MatchAt(s, start).None? && start < |s| {
      SearchFromFirst(s, start + 1);
      if SearchFrom(s, start + 1).Some? {
        var i :| start + 1 <= i <= |s| && MatchAt(s, i).Some?
          && i <= MatchAt(s, i).value <= |s|
          && SearchFrom(s, start + 1).value == s[i..MatchAt(s, i).value]
          && forall i' :: start + 1 <= i' < i ==> MatchAt(s, i').None?;
        assert forall i' :: start <= i' < i ==> MatchAt(s, i').None?;
      }
    }
  }

  /** The extractor reports exactly the leftmost (and, at that start, longest)
      substring matching the pattern, and null exactly when none matches. */
  lemma ExtractEmailAddressCorrect(text: string)
    ensures ExtractEmailAddress(text).None? <==>
      forall i, j :: 0 <= i <= j <= |text| ==> !IsEmail(text[i..j])
    ensures ExtractEmailAddress(text).Some? ==>
      exists i, j :: IsLeftmostLongest(text, i, j) && ExtractEmailAddress(text).value == text[i..j]
  {
    SearchFromFirst(text, 0);
    if ExtractEmailAddress(text).None? {
      forall i, j | 0 <= i <= j <= |text| ensures !IsEmail(text[i..j]) {
        if IsEmail(text[i..j]) { MatchAtComplete(text, i, j); }
      }
    } else {
      var i :| 0 <= i <= |text| && MatchAt(text, i).Some?
        && i <= MatchAt(text, i).value <= |text|
        && ExtractEmailAddress(text).value == text[i..MatchAt(text, i).value]
        && forall i' :: 0 <= i' < i ==> MatchAt(text, i').None?;
      var j := MatchAt(text, i).value;
      MatchAtSound(text, i);
      forall i', j' | 0 <= i' <= j' <= |text| && IsEmail(text[i'..j']) ensures i <= i' {
        MatchAtComplete(text, i', j');
      }
      forall j' | i <= j' <= |text| && IsEmail(text[i..j']) ensures j' <= j {
        MatchAtComplete(text, i, j');
      }
      assert IsLeftmostLongest(text, i, j);
    }
  }

  /** Re-extracting from an extracted address gives the address back. */
  lemma ExtractEmailAddressIdempotent(text: string)
    requires ExtractEmailAddress(text).Some?
    ensures ExtractEmailAddress(ExtractEmailAddress(text).value) == ExtractEmailAddress(text)
  {
    ExtractEmailAddressCorrect(text);
    var m := ExtractEmailAddress(text).value;
    var i, j :| IsLeftmostLongest(text, i, j) && m == text[i..j];
    assert m[0..|m|] == m;
    ExtractBareAddress(m);
  }

  /** A text that is itself an address extracts to itself. */
  lemma ExtractBareAddress(m: string)
    requires IsEmail(m)
    ensures ExtractEmailAddress(m) == Some(m)
  {
    assert m[0..|m|] == m;
    MatchAtComplete(m, 0, |m|);
    assert SearchFrom(m, 0) == Some(m[0..MatchAt(m, 0).value]);
  }

  /** A text without '@' holds no address. */
  lemma NoAtSignNoAddress(text: string)
    requires forall k :: 0 <= k < |text| ==> text[k] != '@'
    ensures ExtractEmailAddress(text).None?
  {
    ExtractEmailAddressCorrect(text);
    forall i, j | 0 <= i <= j <= |text| ensures !IsEmail(text[i..j]) {
      if IsEmail(text[i..j]) {
        var a, p :| EmailShape(text[i..j], a, p);
        SliceOfShape(text, i, j, a, p);
      }
    }
  }

  /** No match starts before `lo` when s[..lo] has no '@' and ends in a
      character that cannot be part of a local part. */
  lemma NoMatchBefore(s: string, lo: nat, i: nat, j: nat)
    requires i < lo <= |s| && i <= j <= |s|
    requires forall k :: 0 <= k < lo ==> s[k] != '@'
    requires !IsLocalChar(s[lo - 1])
    ensures !IsEmail(s[i..j])
  {
    if IsEmail(s[i..j]) {
      var a, p :| EmailShape(s[i..j], a, p);
      SliceOfShape(s, i, j, a, p);
    }
  }

  /** A domain run that starts before `hi` cannot pass a non-domain character at `hi`. */
  lemma DomainStop(s: string, lo: int, j: int, hi: nat)
    requires lo < hi < |s| && !IsDomainChar(s[hi])
    requires forall k :: lo < k < j && 0 <= k < |s| ==> IsDomainChar(s[k])
    ensures j <= hi
  {
  }

  /** The leftmost match starts at `lo` when a match starts there and no
      match can start before. */
  lemma LeftmostStartsAt(s: string, lo: nat, hi: nat, i: nat, j: nat)
    requires lo <= hi <= |s| && IsEmail(s[lo..hi])
    requires IsLeftmostLongest(s, i, j)
    requires forall k :: 0 <= k < lo ==> s[k] != '@'
    requires lo > 0 ==> !IsLocalChar(s[lo - 1])
    ensures i == lo && hi <= j
  {
    if i < lo {
      NoMatchBefore(s, lo, i, j);
    }
  }

  /** Two matches starting at `lo`: the longer one cannot pass a non-domain
      character at the end of the shorter one. */
  lemma MatchStopsAt(s: string, lo: nat, hi: nat, j: nat)
    requires lo <= hi <= j <= |s|
    requires IsEmail(s[lo..hi]) && IsEmail(s[lo..j])
    requires hi < |s| ==> !IsDomainChar(s[hi])
    ensures j == hi
  {
    var a, p :| EmailShape(s[lo..j], a, p);
    SliceOfShape(s, lo, j, a, p);
    var a0, p0 :| EmailShape(s[lo..hi], a0, p0);
    SliceOfShape(s, lo, hi, a0, p0);
    LocalRunEndIsFirstStop(s, lo, lo + a);
    LocalRunEndIsFirstStop(s, lo, lo + a0);
    if hi < |s| {
      DomainStop(s, lo + a, j, hi);
    }
  }

  /** The match of s[lo..hi] is the one reported when nothing before `lo` can
      start a match and the character at `hi` cannot extend it. */
  lemma MatchBetween(s: string, lo: nat, hi: nat)
    requires lo <= hi <= |s| && IsEmail(s[lo..hi])
    requires forall k :: 0 <= k < lo ==> s[k] != '@'
    requires lo > 0 ==> !IsLocalChar(s[lo - 1])
    requires hi < |s| ==> !IsDomainChar(s[hi])
    ensures ExtractEmailAddress(s) == Some(s[lo..hi])
  {
    ExtractEmailAddressCorrect(s);
    var i, j :| IsLeftmostLongest(s, i, j) && ExtractEmailAddress(s).value == s[i..j];
    LeftmostStartsAt(s, lo, hi, i, j);
    MatchStopsAt(s, lo, hi, j);
  }

  /** Surrounding text does not change the result: an address preceded by
      text without '@' that ends in a separator, and followed by a character
      that cannot continue a domain, is extracted exactly. */
  lemma ExtractSurrounded(pre: string, address: string, post: string)
    requires IsEmail(address)
    requires forall k :: 0 <= k < |pre| ==> pre[k] != '@'
    requires pre != [] ==> !IsLocalChar(pre[|pre| - 1])
    requires post != [] ==> !IsDomainChar(post[0])
    ensures ExtractEmailAddress(pre + address + post) == Some(address)
  {
    var s := pre + address + post;
    var lo, hi := |pre|, |pre| + |address|;
    assert s[lo..hi] == address;
    assert forall k :: 0 <= k < lo ==> s[k] == pre[k];
    assert lo > 0 ==> s[lo - 1] == pre[|pre| - 1];
    assert hi < |s| ==> s[hi] == post[0];
    MatchBetween(s, lo, hi);
  }

  /** A sentence without an '@' holds no address. */
  lemma ExampleRejected()
    ensures ExtractEmailAddress("not an email").None?
  {
    NoAtSignNoAddress("not an email");
  }
}
