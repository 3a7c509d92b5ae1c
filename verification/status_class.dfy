/** The CSS class derived from a status name (app.js:533-535). */
module StatusClass {
  import opened Strings
  import opened Records

  /** JavaScript `s.replace(/\s+/g, sep)`: every maximal run of white space becomes one `sep`. */
  function ReplaceWhitespaceRuns(s: string, sep: char): (r: string)
    ensures !IsWhitespace(sep) ==> NoWhitespace(r)
    ensures NoWhitespace(s) ==> r == s
    ensures |r| <= |s|
    decreases |s|
  {
    if s == [] then []
    else if IsWhitespace(s[0]) then [sep] + ReplaceWhitespaceRuns(TrimStart(s), sep)
    else
      var rest := ReplaceWhitespaceRuns(s[1..], sep);
      assert NoWhitespace(s) ==> NoWhitespace(s[1..]);
      [s[0]] + rest
  }

  /** `status.toLowerCase().replace(/\s+/g, '-')`. */
  function GetStatusClass(status: string): (r: string)
    ensures NoWhitespace(r)
    ensures |r| <= |status|
    ensures NoWhitespace(status) ==> r == ToLower(status)
  {
    var lower := ToLower(status);
    assert NoWhitespace(status) ==> NoWhitespace(lower) by {
      if NoWhitespace(status) {
        forall i | 0 <= i < |lower| ensures !IsWhitespace(lower[i]) {
          assert lower[i] == ToLowerChar(status[i]);
        }
      }
    }
    ReplaceWhitespaceRuns(lower, '-')
  }

  /** A leading character that is not white space is copied. */
  lemma ReplaceKeepsWord(s: string, sep: char)
    requires s != [] && !IsWhitespace(s[0])
    ensures ReplaceWhitespaceRuns(s, sep) == [s[0]] + ReplaceWhitespaceRuns(s[1..], sep)
  {
  }

  /** A leading white-space character starts a run that becomes one separator. */
  lemma ReplaceDropsRun(s: string, sep: char)
    requires s != [] && IsWhitespace(s[0])
    ensures ReplaceWhitespaceRuns(s, sep) == [sep] + ReplaceWhitespaceRuns(TrimStart(s), sep)
  {
  }

  /** A white-space-free prefix is copied unchanged. */
  lemma {:induction false} ReplaceCopiesWord(a: string, t: string, sep: char)
    requires NoWhitespace(a)
    ensures ReplaceWhitespaceRuns(a + t, sep) == a + ReplaceWhitespaceRuns(t, sep)
    decreases |a|
  {
    if a == [] {
      assert a + t == t;
    } else {
      var s := a + t;
      var m := ReplaceWhitespaceRuns(t, sep);
      calc {
        ReplaceWhitespaceRuns(s, sep);
        { assert s[0] == a[0]; ReplaceKeepsWord(s, sep); }
        [a[0]] + ReplaceWhitespaceRuns(s[1..], sep);
        { assert s[1..] == a[1..] + t; }
        [a[0]] + ReplaceWhitespaceRuns(a[1..] + t, sep);
        { ReplaceCopiesWord(a[1..], t, sep); }
        [a[0]] + (a[1..] + m);
        { ConsAppend(a, m); }
        a + m;
      }
    }
  }

  /** A maximal run of white space at the front becomes one separator. */
  lemma ReplaceCollapsesRun(w: string, b: string, sep: char)
    requires w != [] && AllWhitespace(w) && (b == [] || !IsWhitespace(b[0]))
    ensures ReplaceWhitespaceRuns(w + b, sep) == [sep] + ReplaceWhitespaceRuns(b, sep)
  {
    var s := w + b;
    assert s[0] == w[0];
    assert forall m :: 0 <= m < |w| ==> s[m] == w[m];
    SkipWhitespaceTo(s, 0, |w|);
    assert TrimStart(s) == b;
    ReplaceDropsRun(s, sep);
  }

  /** A maximal run of white space between a word and the rest of the text becomes
      one separator; the word and the rest are kept in order. */
  lemma ReplaceWhitespaceRun(a: string, w: string, b: string, sep: char)
    requires NoWhitespace(a) && w != [] && AllWhitespace(w) && (b == [] || !IsWhitespace(b[0]))
    ensures ReplaceWhitespaceRuns(a + w + b, sep) == a + [sep] + ReplaceWhitespaceRuns(b, sep)
  {
    var m := ReplaceWhitespaceRuns(b, sep);
    calc {
      ReplaceWhitespaceRuns(a + w + b, sep);
      { assert a + w + b == a + (w + b); }
      ReplaceWhitespaceRuns(a + (w + b), sep);
      { ReplaceCopiesWord(a, w + b, sep); }
      a + ReplaceWhitespaceRuns(w + b, sep);
      { ReplaceCollapsesRun(w, b, sep); }
      a + ([sep] + m);
      { assert a + ([sep] + m) == a + [sep] + m; }
      a + [sep] + m;
    }
  }

  /** The class of a status is its first word lower-cased, one '-' for the
      white-space run after it, then the class of the rest. */
  lemma StatusClassJoinsRun(a: string, w: string, b: string)
    requires NoWhitespace(a) && w != [] && AllWhitespace(w) && (b == [] || !IsWhitespace(b[0]))
    ensures GetStatusClass(a + w + b) == ToLower(a) + "-" + GetStatusClass(b)
  {
    ToLowerConcat(a + w, b);
    ToLowerConcat(a, w);
    assert ToLower(w) == w by {
      forall i | 0 <= i < |w| ensures ToLower(w)[i] == w[i] {
      }
    }
    var la, lb := ToLower(a), ToLower(b);
    assert NoWhitespace(la) by {
      forall i | 0 <= i < |la| ensures !IsWhitespace(la[i]) {
        ToLowerKeepsWhitespace(a[i]);
      }
    }
    assert lb == [] || !IsWhitespace(lb[0]) by {
      if lb != [] {
        ToLowerKeepsWhitespace(b[0]);
      }
    }
    ReplaceWhitespaceRun(la, w, lb, '-');
  }

  lemma ConsAppend(a: string, m: string)
    requires a != []
    ensures a + m == [a[0]] + (a[1..] + m)
  {
    assert a == [a[0]] + a[1..];
  }

  predicate AllAsciiLetters(s: string) {
    forall i :: 0 <= i < |s| ==> ('a' <= s[i] <= 'z' || 'A' <= s[i] <= 'Z')
  }

  lemma LettersAreNotWhitespace(s: string)
    requires AllAsciiLetters(s)
    ensures NoWhitespace(s)
  {
  }

  /** The class of a one-word name is its lower-case spelling. */
  lemma OneWordClass(name: string, cls: string)
    requires AllAsciiLetters(name) && ToLower(name) == cls
    ensures GetStatusClass(name) == cls
  {
    LettersAreNotWhitespace(name);
  }

  /** The class of a two-word name joins the lower-case words with a hyphen. */
  lemma TwoWordClass(name: string, a: string, b: string)
    requires AllAsciiLetters(a) && AllAsciiLetters(b) && ToLower(name) == a + " " + b
    ensures GetStatusClass(name) == a + "-" + b
  {
    LettersAreNotWhitespace(a);
    LettersAreNotWhitespace(b);
    assert a + " " + b == a + [' '] + b;
    assert AllWhitespace([' ']);
    ReplaceWhitespaceRun(a, [' '], b, '-');
  }

  lemma InReviewClass()
    ensures GetStatusClass("In Review") == "in-review"
  {
    assert ToLower("In Review") == "in" + " " + "review" by {
      assert |ToLower("In Review")| == 9;
    }
    assert AllAsciiLetters("in") && AllAsciiLetters("review");
    assert "in" + "-" + "review" == "in-review" by {
      assert |"in" + "-" + "review"| == 9;
    }
    TwoWordClass("In Review", "in", "review");
  }

  lemma NeedInfoClass()
    ensures GetStatusClass("Need Info") == "need-info"
  {
    assert ToLower("Need Info") == "need" + " " + "info" by {
      assert |ToLower("Need Info")| == 9;
    }
    assert AllAsciiLetters("need") && AllAsciiLetters("info");
    assert "need" + "-" + "info" == "need-info" by {
      assert |"need" + "-" + "info"| == 9;
    }
    TwoWordClass("Need Info", "need", "info");
  }

  lemma NewClass()
    ensures GetStatusClass("New") == "new"
  {
    assert ToLower("New") == "new" by {
      assert |ToLower("New")| == 3;
    }
    assert AllAsciiLetters("New");
    OneWordClass("New", "new");
  }

  lemma DeclinedClass()
    ensures GetStatusClass("Declined") == "declined"
  {
    assert ToLower("Declined") == "declined" by {
      assert |ToLower("Declined")| == 8;
    }
    assert AllAsciiLetters("Declined");
    OneWordClass("Declined", "declined");
  }

  lemma CompletedClass()
    ensures GetStatusClass("Completed") == "completed"
  {
    assert ToLower("Completed") == "completed" by {
      assert |ToLower("Completed")| == 9;
    }
    assert AllAsciiLetters("Completed");
    OneWordClass("Completed", "completed");
  }

  /** The class of each of the five statuses. */
  lemma StatusClassValues()
    ensures GetStatusClass(StatusName(New)) == "new"
    ensures GetStatusClass(StatusName(InReview)) == "in-review"
    ensures GetStatusClass(StatusName(NeedInfo)) == "need-info"
    ensures GetStatusClass(StatusName(Declined)) == "declined"
    ensures GetStatusClass(StatusName(Completed)) == "completed"
  {
    NewClass();
    InReviewClass();
    NeedInfoClass();
    DeclinedClass();
    CompletedClass();
  }

  /** Distinct statuses are styled with distinct classes. */
  lemma StatusClassInjective(a: Status, b: Status)
    ensures GetStatusClass(StatusName(a)) == GetStatusClass(StatusName(b)) ==> a == b
  {
    StatusClassValues();
  }
}
