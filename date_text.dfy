/** Text operations on the date columns of the two tables: the substring test
    that pandas' `str.contains` performs, and the `datesplit` rewrite that turns
    a source timestamp such as "2020/03/01 00:00:00+00" into "03/01". */
module DateText {

  /** `p` occurs in `s` at some position: `s.str.contains(p)` for the query
      texts the dashboard builds, which hold only digits and '/' and so match
      literally even though pandas reads them as regular expressions. */
  predicate Contains(s: string, p: string)
    ensures |p| == 0 ==> Contains(s, p)
    ensures Contains(s, p) ==> |p| <= |s|
    decreases |s|
  {
    if |p| > |s| then false
    else if s[..|p|] == p then true
    else Contains(s[1..], p)
  }

  /** `p` occurs in `s` starting at position `i`. */
  predicate OccursAt(s: string, p: string, i: int)
  {
    0 <= i && i + |p| <= |s| && s[i..i + |p|] == p
  }

  /** Contains holds exactly when `p` occurs in `s` at some position. */
  lemma {:induction false} ContainsIff(s: string, p: string)
    ensures Contains(s, p) <==> exists i :: OccursAt(s, p, i)
    decreases |s|
  {
    if |p| > |s| {
    } else if s[..|p|] == p {
      assert OccursAt(s, p, 0);
    } else {
      ContainsIff(s[1..], p);
      if Contains(s, p) {
        var i :| OccursAt(s[1..], p, i);
        assert s[i + 1..i + 1 + |p|] == s[1..][i..i + |p|];
        assert OccursAt(s, p, i + 1);
      }
      if exists i :: OccursAt(s, p, i) {
        var i :| OccursAt(s, p, i);
        assert i != 0;
        assert s[1..][i - 1..i - 1 + |p|] == s[i..i + |p|];
        assert OccursAt(s[1..], p, i - 1);
      }
    }
  }

  /** `date.split(" ")[0]`: everything before the first space, or the whole
      string when it has none. */
  function BeforeSpace(s: string): (r: string)
    ensures ' ' !in r
    ensures |r| <= |s| && r == s[..|r|]
    ensures |r| < |s| ==> s[|r|] == ' '
  {
    if s == [] || s[0] == ' ' then [] else [s[0]] + BeforeSpace(s[1..])
  }

  const Year: string := "2020/"

  /** `s.replace(pat, "")`: every occurrence of a non-empty `pat` removed,
      scanning left to right without overlaps as Python's `str.replace` does. */
  function RemoveAll(s: string, pat: string): (r: string)
    requires |pat| > 0
    ensures |r| <= |s|
    ensures forall c :: c in r ==> c in s
    ensures |s| < |pat| ==> r == s
    decreases |s|
  {
    if |s| >= |pat| && s[..|pat|] == pat then RemoveAll(s[|pat|..], pat)
    else if s == [] then []
    else [s[0]] + RemoveAll(s[1..], pat)
  }

  /** `datesplit` of ireland_dash.py: its result is drawn from the text
      before the first space, so it holds no space. */
  function DateSplit(date: string): (r: string)
    ensures ' ' !in r
    ensures |r| <= |date|
    ensures forall c :: c in r ==> c in date
  {
    RemoveAll(BeforeSpace(date), Year)
  }

  predicate IsDigit(c: char) { '0' <= c <= '9' }

  /** The national table's raw date, "2020/MM/DD" followed by a space and a
      time of day with no '/' in it (the source writes "HH:MM:SS+00"). */
  predicate IsSourceDate(s: string)
  {
    |s| >= 11 && s[..5] == Year
    && IsDigit(s[5]) && IsDigit(s[6]) && s[7] == '/' && IsDigit(s[8]) && IsDigit(s[9])
    && s[10] == ' ' && '/' !in s[11..]
  }

  /** The text "MM/DD" that `strftime("%m/%d")` yields: a month begins with
      '0' or '1'. */
  predicate IsMonthDay(q: string)
  {
    |q| == 5 && (q[0] == '0' || q[0] == '1') && IsDigit(q[1]) && q[2] == '/'
    && IsDigit(q[3]) && IsDigit(q[4])
  }

  /** On a source date, `datesplit` keeps exactly the "MM/DD" part. */
  lemma DateSplitOfSourceDate(s: string)
    requires IsSourceDate(s)
    ensures DateSplit(s) == s[5..10]
  {
    var b := BeforeSpace(s);
    assert b == s[..10] by {
      assert forall k :: 0 <= k < 10 ==> s[k] != ' ';
      BeforeSpacePrefix(s, 10);
    }
    assert b[..5] == Year;
    var rest := b[5..];
    assert rest == s[5..10];
    assert rest[..5] != Year by { assert rest[4] != '/'; }
    assert RemoveAll(rest, Year) == rest by { ShortRemoveAll(rest); }
  }

  /** BeforeSpace stops at the first space. */
  lemma BeforeSpacePrefix(s: string, n: nat)
    requires n < |s| && s[n] == ' '
    requires forall k :: 0 <= k < n ==> s[k] != ' '
    ensures BeforeSpace(s) == s[..n]
  {
  }

  /** A string "dd/dd" holds no "2020/" at any position. */
  lemma ShortRemoveAll(r: string)
    requires |r| == 5 && r[..5] != Year && r[4] != '/' && r[1] != '/' && r[2] != '2'
    ensures RemoveAll(r, Year) == r
  {
  }

  /** Applying `datesplit` to its own result on a source date changes nothing,
      so rewriting the table's Date column again on every dropdown change
      leaves it as the first rewrite made it. */
  lemma DateSplitIdempotent(s: string)
    requires IsSourceDate(s)
    ensures DateSplit(DateSplit(s)) == DateSplit(s)
  {
    DateSplitOfSourceDate(s);
    var m := s[5..10];
    assert BeforeSpace(m) == m by {
      assert forall k :: 0 <= k < |m| ==> m[k] != ' ';
      NoSpaceBeforeSpace(m);
    }
    ShortRemoveAll(m);
  }

  lemma NoSpaceBeforeSpace(s: string)
    requires forall k :: 0 <= k < |s| ==> s[k] != ' '
    ensures BeforeSpace(s) == s
  {
  }

  /** Off the source format `datesplit` is not idempotent: removing one
      "2020/" can join two halves into another. */
  lemma DateSplitNotIdempotentInGeneral()
    ensures DateSplit("22020/020/") == "2020/"
    ensures DateSplit(DateSplit("22020/020/")) == ""
  {
    var s: string := "22020/020/";
    NoSpaceBeforeSpace(s);
    assert s[1..][..5] == Year;
    assert s[1..][5..] == "020/";
    var t: string := "020/";
    assert RemoveAll(t, Year) == t by {
      assert RemoveAll(t[1..], Year) == t[1..] by {
        assert RemoveAll(t[2..], Year) == t[2..] by {
          assert RemoveAll(t[3..], Year) == t[3..];
        }
      }
    }
    NoSpaceBeforeSpace(Year);
    assert Year[..5] == Year;
    assert Year[5..] == [];
  }

  /** On a source date, asking for "MM/DD" before or after the `datesplit`
      rewrite selects the same rows: the raw text can only hold "MM/DD" at
      the date's own month and day, since "20/MM" is not a month. */
  lemma {:induction false} QueryAgreesAfterDateSplit(s: string, q: string)
    requires IsSourceDate(s) && IsMonthDay(q)
    ensures Contains(s, q) <==> Contains(DateSplit(s), q)
    ensures Contains(s, q) <==> q == s[5..10]
  {
    DateSplitOfSourceDate(s);
    var m := s[5..10];
    ContainsIff(s, q);
    ContainsIff(m, q);
    if Contains(s, q) {
      var i :| OccursAt(s, q, i);
      assert s[i + 2] == s[i..i + |q|][2] == '/';
      assert i + 2 < 11;
      assert i != 2 by { assert s[i..i + |q|][0] == s[i]; }
      assert i == 5;
      assert q == m;
    }
    if q == m {
      assert OccursAt(s, q, 5);
      assert OccursAt(m, q, 0);
    }
    if Contains(m, q) {
      var i :| OccursAt(m, q, i);
      assert q == m;
    }
  }
}
