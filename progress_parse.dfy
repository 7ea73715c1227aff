/**
 * The progress pattern of the log handler, `/Progress: (\d+)\/(\d+)/`, as a
 * pure parser. The pattern is unanchored, so the leftmost position where it
 * matches wins; both groups are greedy. The first group can only be followed
 * by `/` when it has taken the whole digit run (a shorter run is followed by
 * a digit), and the second group takes its whole run.
 */
module ProgressParse {
  import opened Wrappers
  import opened Numbers

  const Marker: string := "Progress: "

  /** The literal `Progress: ` occurs at position `i`. */
  predicate MarkerAt(s: string, i: nat) {
    i + |Marker| <= |s| && s[i..i + |Marker|] == Marker
  }

  /** `(\d+)\/(\d+)` tried at position `j`: the two greedy digit runs around a slash. */
  function GroupsAt(s: string, j: nat): (groups: Option<(string, string)>)
    requires j <= |s|
    ensures groups.Some? ==> |groups.value.0| > 0 && AllDigits(groups.value.0)
    ensures groups.Some? ==> |groups.value.1| > 0 && AllDigits(groups.value.1)
  {
    var n1 := DigitRun(s, j);
    if n1 > 0 && j + n1 < |s| && s[j + n1] == '/' then
      var k := j + n1 + 1;
      var n2 := DigitRun(s, k);
      if n2 > 0 then Some((s[j..j + n1], s[k..k + n2])) else None
    else None
  }

  /** The whole pattern tried at position `i` only: the two captured digit strings, if it matches there. */
  function MatchAt(s: string, i: nat): (groups: Option<(string, string)>)
    ensures groups.Some? ==> |groups.value.0| > 0 && AllDigits(groups.value.0)
    ensures groups.Some? ==> |groups.value.1| > 0 && AllDigits(groups.value.1)
  {
    if MarkerAt(s, i) then GroupsAt(s, i + |Marker|) else None
  }

  /** A captured group without a leading zero is the numeral of the value read from it. */
  lemma ReadBack(g: string)
    requires AllDigits(g)
    ensures |g| > 0 && (|g| == 1 || g[0] != '0') ==> Decimal(DigitsValue(g)) == g
    ensures |g| > 0 && g[0] == '0' ==> DigitsValue(g) == DigitsValue(g[1..])
  {
    if |g| > 0 && (|g| == 1 || g[0] != '0') {
      CanonicalRoundTrip(g);
    }
    if |g| > 0 && g[0] == '0' {
      LeadingZero(g[1..]);
      assert "0" + g[1..] == g;
    }
  }

  /**
   * A match at `i` is read off the text: `Progress: `, the first group, a
   * slash and the second group sit at `i`, and no digit follows the second group.
   */
  lemma MatchSound(s: string, i: nat)
    requires MatchAt(s, i).Some?
    ensures var (g1, g2) := MatchAt(s, i).value;
            var e := i + |Marker| + |g1| + 1 + |g2|;
            e <= |s| && s[i..e] == Marker + (g1 + ("/" + g2)) && (e == |s| || !IsDigit(s[e]))
  {
    var j := i + |Marker|;
    var n1 := DigitRun(s, j);
    var k := j + n1 + 1;
    var n2 := DigitRun(s, k);
    var g1, g2 := s[j..j + n1], s[k..k + n2];
    var e := k + n2;
    assert MatchAt(s, i).value == (g1, g2);
    assert s[j + n1..e] == [s[j + n1]] + g2;
    assert s[j..e] == g1 + s[j + n1..e];
    assert s[i..e] == s[i..j] + s[j..e];
  }

  /** The two captured groups read by `parseInt`. */
  function Counts(groups: (string, string)): (r: (nat, nat))
    requires AllDigits(groups.0) && AllDigits(groups.1)
    ensures |groups.0| > 0 && (|groups.0| == 1 || groups.0[0] != '0') ==> Decimal(r.0) == groups.0
    ensures |groups.1| > 0 && (|groups.1| == 1 || groups.1[0] != '0') ==> Decimal(r.1) == groups.1
    ensures |groups.0| > 0 && groups.0[0] == '0' ==> r.0 == DigitsValue(groups.0[1..])
    ensures |groups.1| > 0 && groups.1[0] == '0' ==> r.1 == DigitsValue(groups.1[1..])
  {
    ReadBack(groups.0);
    ReadBack(groups.1);
    (DigitsValue(groups.0), DigitsValue(groups.1))
  }

  /** The first position at or after `i` where the pattern matches. */
  function LeftmostFrom(s: string, i: nat): (p: Option<nat>)
    requires i <= |s|
    ensures p.Some? ==> i <= p.value <= |s| && MatchAt(s, p.value).Some?
    ensures p.Some? ==> forall q :: i <= q < p.value ==> MatchAt(s, q).None?
    ensures p.None? ==> forall q :: i <= q <= |s| ==> MatchAt(s, q).None?
    decreases |s| - i
  {
    if MatchAt(s, i).Some? then Some(i)
    else if i == |s| then None
    else LeftmostFrom(s, i + 1)
  }

  /** Two positions that are both "a match with none before it" are the same position. */
  lemma LeftmostUnique(s: string, p0: nat, p: nat)
    requires MatchAt(s, p0).Some? && forall q :: 0 <= q < p0 ==> MatchAt(s, q).None?
    requires MatchAt(s, p).Some? && forall q :: 0 <= q < p ==> MatchAt(s, q).None?
    ensures p == p0
  {
  }

  /** `message.match(/Progress: (\d+)\/(\d+)/)` read as (completed, total). */
  function ParseProgress(message: string): (r: Option<(nat, nat)>)
    ensures r.None? <==> forall p :: 0 <= p <= |message| ==> MatchAt(message, p).None?
    ensures forall p :: (0 <= p <= |message| && MatchAt(message, p).Some? &&
                         (forall q :: 0 <= q < p ==> MatchAt(message, q).None?))
                        ==> r == Some(Counts(MatchAt(message, p).value))
  {
    match LeftmostFrom(message, 0)
    case None => None
    case Some(p0) =>
      assert forall p :: (0 <= p <= |message| && MatchAt(message, p).Some? &&
                          (forall q :: 0 <= q < p ==> MatchAt(message, q).None?)) ==> p == p0 by {
        forall p | 0 <= p <= |message| && MatchAt(message, p).Some? &&
                   (forall q :: 0 <= q < p ==> MatchAt(message, q).None?)
          ensures p == p0
        {
          LeftmostUnique(message, p0, p);
        }
      }
      Some(Counts(MatchAt(message, p0).value))
  }

  /** The two groups, given a digit run, a slash and a second digit run at `j`. */
  lemma GroupsOf(s: string, j: nat, c: string, t: string)
    requires |c| > 0 && |t| > 0
    requires j + |c| + 1 + |t| <= |s|
    requires s[j..j + |c|] == c && s[j + |c|] == '/' && s[j + |c| + 1..j + |c| + 1 + |t|] == t
    requires DigitRun(s, j) == |c| && DigitRun(s, j + |c| + 1) == |t|
    ensures GroupsAt(s, j) == Some((c, t))
  {
  }

  /** Re-association of the five parts of a built message. */
  lemma Regroup(a: string, b: string, c: string, d: string, e: string)
    ensures a + b + c + d + e == a + (b + (c + (d + e)))
  {
    assert a + b + c + d + e == (a + b + c) + (d + e);
    assert a + b + c == a + (b + c);
    assert (a + (b + c)) + (d + e) == a + (b + (c + (d + e)));
  }

  /** A digit string after any text, followed by a non-digit or the end, is the greedy run there. */
  lemma RunIn(a: string, ds: string, d: string)
    requires AllDigits(ds)
    requires d == [] || !IsDigit(d[0])
    ensures (a + (ds + d))[|a|..|a| + |ds|] == ds
    ensures DigitRun(a + (ds + d), |a|) == |ds|
  {
    var s := a + (ds + d);
    assert s[|a|..] == ds + d;
    assert s[|a|..|a| + |ds|] == (ds + d)[..|ds|] == ds;
    assert |a| + |ds| < |s| ==> s[|a| + |ds|] == d[0];
    RunOf(s, |a|, ds);
  }

  /** Re-association that puts the slash on the text before the second group. */
  lemma Shift(a: string, c: string, u: string)
    ensures a + (c + ("/" + u)) == (a + (c + "/")) + u
  {
    assert c + ("/" + u) == (c + "/") + u;
  }

  /** The second group of a built message: a slash and then a digit run, as seen from the whole text. */
  lemma SecondRun(prefix: string, c: string, t: string, rest: string)
    requires AllDigits(t)
    requires rest == [] || !IsDigit(rest[0])
    ensures var s := prefix + (c + ("/" + (t + rest)));
            var k := |prefix| + |c| + 1;
            s[k - 1] == '/' && s[k..k + |t|] == t && DigitRun(s, k) == |t|
  {
    Shift(prefix, c, t + rest);
    RunIn(prefix + (c + "/"), t, rest);
    assert (prefix + (c + "/"))[|prefix| + |c|] == '/';
  }

  /** After any prefix, two digit strings around a slash, not followed by a digit, are the two groups. */
  lemma GroupsBuilt(prefix: string, c: string, t: string, rest: string)
    requires |c| > 0 && AllDigits(c) && |t| > 0 && AllDigits(t)
    requires rest == [] || !IsDigit(rest[0])
    ensures GroupsAt(prefix + (c + ("/" + (t + rest))), |prefix|) == Some((c, t))
  {
    var s := prefix + (c + ("/" + (t + rest)));
    RunIn(prefix, c, "/" + (t + rest));
    SecondRun(prefix, c, t, rest);
    GroupsOf(s, |prefix|, c, t);
  }

  /** The pattern matches at the start of a message built from two numerals. */
  lemma MatchBuilt(completed: nat, total: nat, rest: string)
    requires rest == [] || !IsDigit(rest[0])
    ensures MatchAt(Marker + Decimal(completed) + "/" + Decimal(total) + rest, 0) == Some((Decimal(completed), Decimal(total)))
  {
    var c, t := Decimal(completed), Decimal(total);
    var s := Marker + (c + ("/" + (t + rest)));
    Regroup(Marker, c, "/", t, rest);
    assert s[0..|Marker|] == Marker;
    GroupsBuilt(Marker, c, t, rest);
  }

  /**
   * Round trip: a message that starts with the progress text built from two
   * numerals, followed by anything that does not continue the second numeral,
   * parses back to those two numbers.
   */
  lemma {:induction false} ParseRoundTrip(completed: nat, total: nat, rest: string)
    requires rest == [] || !IsDigit(rest[0])
    ensures ParseProgress(Marker + Decimal(completed) + "/" + Decimal(total) + rest) == Some((completed, total))
  {
    var s := Marker + Decimal(completed) + "/" + Decimal(total) + rest;
    MatchBuilt(completed, total, rest);
    assert LeftmostFrom(s, 0) == Some(0);
    DecimalRoundTrip(completed);
    DecimalRoundTrip(total);
  }

  /** No match can start inside a text that holds no `P`. */
  lemma NoMatchIn(text: string, v: string)
    requires forall i :: 0 <= i < |text| ==> text[i] != 'P'
    ensures forall q :: 0 <= q < |text| ==> MatchAt(text + v, q).None?
  {
    var s := text + v;
    forall q | 0 <= q < |text| ensures MatchAt(s, q).None? {
      assert s[q] == text[q];
      assert q + |Marker| <= |s| ==> s[q..q + |Marker|][0] == s[q];
    }
  }

  /** After any text, the progress text built from two numerals matches where it starts. */
  lemma MatchAfter(text: string, c: string, t: string, rest: string)
    requires |c| > 0 && AllDigits(c) && |t| > 0 && AllDigits(t)
    requires rest == [] || !IsDigit(rest[0])
    ensures MatchAt(text + (Marker + (c + ("/" + (t + rest)))), |text|) == Some((c, t))
  {
    var v := c + ("/" + (t + rest));
    var s := text + (Marker + v);
    assert s[|text|..|text| + |Marker|] == Marker;
    assert (text + Marker) + v == s;
    GroupsBuilt(text + Marker, c, t, rest);
  }

  /**
   * The pattern is unanchored: after any text that holds no `P`, and so no
   * earlier match, the progress text is still found and read back.
   */
  lemma ParseAfterText(text: string, completed: nat, total: nat, rest: string)
    requires forall i :: 0 <= i < |text| ==> text[i] != 'P'
    requires rest == [] || !IsDigit(rest[0])
    ensures ParseProgress(text + Marker + Decimal(completed) + "/" + Decimal(total) + rest) == Some((completed, total))
  {
    var c, t := Decimal(completed), Decimal(total);
    var s := text + (Marker + (c + ("/" + (t + rest))));
    RegroupAfter(text, c, t, rest);
    MatchAfter(text, c, t, rest);
    NoMatchIn(text, Marker + (c + ("/" + (t + rest))));
    FirstMatch(s, |text|);
    DecimalRoundTrip(completed);
    DecimalRoundTrip(total);
  }

  /** A message with a match at `p` and none before it parses to what is captured at `p`. */
  lemma FirstMatch(s: string, p: nat)
    requires p <= |s| && MatchAt(s, p).Some?
    requires forall q :: 0 <= q < p ==> MatchAt(s, q).None?
    ensures ParseProgress(s) == Some(Counts(MatchAt(s, p).value))
  {
  }

  /** Re-association of a message with text before the progress text. */
  lemma RegroupAfter(text: string, c: string, t: string, rest: string)
    ensures text + Marker + c + "/" + t + rest == text + (Marker + (c + ("/" + (t + rest))))
  {
    Regroup(text + Marker, c, "/", t, rest);
    assert (text + Marker) + (c + ("/" + (t + rest))) == text + (Marker + (c + ("/" + (t + rest))));
  }

  /** The exact message form the worker sends. */
  lemma ParseExact(completed: nat, total: nat)
    ensures ParseProgress(Marker + Decimal(completed) + "/" + Decimal(total)) == Some((completed, total))
  {
    ParseRoundTrip(completed, total, []);
    assert Marker + Decimal(completed) + "/" + Decimal(total) + [] == Marker + Decimal(completed) + "/" + Decimal(total);
  }

  /** A well-formed progress line. */
  lemma ParseWellFormed()
    ensures ParseProgress("Progress: 7/20") == Some((7, 20))
  {
    assert Decimal(7) == "7";
    assert Decimal(20) == "20";
    ParseExact(7, 20);
    assert Marker + Decimal(7) + "/" + Decimal(20) == "Progress: 7/20";
  }

  /** A malformed progress line matches nowhere. */
  lemma ParseMalformed()
    ensures ParseProgress("Progress: oops").None?
  {
    var bad := "Progress: oops";
    assert bad[|Marker|] == 'o';
    assert DigitRun(bad, |Marker|) == 0;
    assert GroupsAt(bad, |Marker|).None?;
    assert forall p :: 0 < p <= 4 ==> bad[p] != 'P';
    forall p | 0 < p <= |bad| ensures !MarkerAt(bad, p) {
      if p <= 4 {
        assert bad[p..p + |Marker|][0] == bad[p];
      }
    }
  }
}
