/** The local file-name sanitiser, `s.replace(/[^\w_-]+/gi, '_')`
    (index.js:154): every maximal run of characters other than ASCII letters,
    digits, `_` and `-` becomes one `_`; all other characters are kept in
    order. */
module Sanitizer {
  import opened Strings

  /** The characters the sanitiser keeps: `\w`, `_` and `-`. */
  predicate Allowed(c: char)
  {
    IsWordChar(c) || c == '-'
  }

  predicate AllAllowed(s: string)
  {
    forall i | 0 <= i < |s| :: Allowed(s[i])
  }

  /** The replacement as one left-to-right scan; `inRun` says that the
      character just before `s` was already replaced. */
  function Squash(s: string, inRun: bool): (r: string)
    ensures AllAllowed(r)
    ensures |r| <= |s|
  {
    if s == [] then []
    else if Allowed(s[0]) then [s[0]] + Squash(s[1..], false)
    else (if inRun then [] else "_") + Squash(s[1..], true)
  }

  /** The sanitiser. Its result only holds allowed characters and is never
      longer than its input. */
  function Sanitize(s: string): (r: string)
    ensures AllAllowed(r)
    ensures |r| <= |s|
  {
    if s == [] then [] else Squash(s, false)
  }

  /** Whether a scan that has just read `a`, having started in state `inRun`,
      is inside a replaced run. */
  function StateAfter(a: string, inRun: bool): bool
  {
    if a == [] then inRun else !Allowed(a[|a| - 1])
  }

  lemma {:induction false} SquashClean(s: string, inRun: bool)
    requires AllAllowed(s)
    ensures Squash(s, inRun) == s
    decreases |s|
  {
    if s != [] {
      SquashClean(s[1..], false);
    }
  }

  /** A string of allowed characters is left as it is. */
  lemma SanitizeClean(s: string)
    requires AllAllowed(s)
    ensures Sanitize(s) == s
  {
    if s != [] {
      SquashClean(s, false);
    }
  }

  /** Sanitising twice is sanitising once. */
  lemma SanitizeIdempotent(s: string)
    ensures Sanitize(Sanitize(s)) == Sanitize(s)
  {
    SanitizeClean(Sanitize(s));
  }

  /** A scan over `a + b` is the scan over `a` followed by the scan over `b`
      started in the state `a` left it in. */
  lemma {:induction false} SquashConcat(a: string, b: string, inRun: bool)
    ensures Squash(a + b, inRun) == Squash(a, inRun) + Squash(b, StateAfter(a, inRun))
    decreases |a|
  {
    if a == [] {
      assert a + b == b;
    } else {
      assert (a + b)[1..] == a[1..] + b;
      SquashConcat(a[1..], b, !Allowed(a[0]));
      assert a[1..] != [] ==> a[1..][|a[1..]| - 1] == a[|a| - 1];
    }
  }

  /** Entering `b` inside a run or not makes no difference when `b` starts
      with an allowed character. */
  lemma SquashFresh(b: string)
    requires b == [] || Allowed(b[0])
    ensures Squash(b, true) == Squash(b, false)
  {
  }

  /** Sanitising distributes over a split that does not cut a run of
      replaced characters in two. */
  lemma SanitizeSplit(a: string, b: string)
    requires a == [] || b == [] || Allowed(a[|a| - 1]) || Allowed(b[0])
    ensures Sanitize(a + b) == Sanitize(a) + Sanitize(b)
  {
    if a == [] {
      assert a + b == b;
    } else if b == [] {
      assert a + b == a;
    } else {
      SquashConcat(a, b, false);
      if !Allowed(a[|a| - 1]) {
        SquashFresh(b);
      }
    }
  }

  lemma {:induction false} SquashRun(r: string)
    requires forall i | 0 <= i < |r| :: !Allowed(r[i])
    ensures Squash(r, true) == []
    decreases |r|
  {
    if r != [] {
      SquashRun(r[1..]);
    }
  }

  /** A non-empty run of replaced characters becomes exactly one `_`. */
  lemma SanitizeRun(r: string)
    requires r != []
    requires forall i | 0 <= i < |r| :: !Allowed(r[i])
    ensures Sanitize(r) == "_"
  {
    SquashRun(r[1..]);
  }

  /** A run of replaced characters followed by an allowed character
      becomes one `_`. */
  lemma RunThen(r: string, y: string)
    requires y == [] || Allowed(y[0])
    requires r != []
    requires forall i | 0 <= i < |r| :: !Allowed(r[i])
    ensures Sanitize(r + y) == "_" + Sanitize(y)
  {
    SanitizeSplit(r, y);
    SanitizeRun(r);
  }

  /** A maximal run of replaced characters between two stretches becomes one
      `_` and the stretches are sanitised on their own. */
  lemma SanitizeMaximalRun(x: string, r: string, y: string)
    requires x == [] || Allowed(x[|x| - 1])
    requires y == [] || Allowed(y[0])
    requires r != []
    requires forall i | 0 <= i < |r| :: !Allowed(r[i])
    ensures Sanitize(x + r + y) == Sanitize(x) + "_" + Sanitize(y)
  {
    var ry := r + y;
    assert x + r + y == x + ry;
    assert Sanitize(ry) == "_" + Sanitize(y) by {
      RunThen(r, y);
    }
    assert Sanitize(x + ry) == Sanitize(x) + Sanitize(ry) by {
      assert ry[0] == r[0];
      SanitizeSplit(x, ry);
    }
    var sx, sy := Sanitize(x), Sanitize(y);
    assert sx + "_" + sy == sx + ("_" + sy);
  }

  /** The characters the sanitiser can neither insert nor drop: the allowed
      ones other than `_`, in order. */
  function Letters(s: string): (r: string)
    ensures |r| <= |s|
  {
    if s == [] then []
    else (if Allowed(s[0]) && s[0] != '_' then [s[0]] else []) + Letters(s[1..])
  }

  lemma {:induction false} LettersConcat(a: string, b: string)
    ensures Letters(a + b) == Letters(a) + Letters(b)
    decreases |a|
  {
    if a == [] {
      assert a + b == b;
    } else {
      assert (a + b)[1..] == a[1..] + b;
      LettersConcat(a[1..], b);
    }
  }

  lemma {:induction false} SquashKeepsLetters(s: string, inRun: bool)
    ensures Letters(Squash(s, inRun)) == Letters(s)
    decreases |s|
  {
    if s != [] {
      var head := if Allowed(s[0]) then [s[0]] else if inRun then [] else "_";
      SquashKeepsLetters(s[1..], !Allowed(s[0]));
      LettersConcat(head, Squash(s[1..], !Allowed(s[0])));
      assert Letters([s[0]]) == if Allowed(s[0]) && s[0] != '_' then [s[0]] else [];
    }
  }

  /** The sanitiser keeps every allowed character other than `_`, in order,
      and adds no other: only underscores are inserted and only disallowed
      characters are dropped. */
  lemma SanitizeKeepsLetters(s: string)
    ensures Letters(Sanitize(s)) == Letters(s)
  {
    if s != [] {
      SquashKeepsLetters(s, false);
    }
  }
}
