/** The fragment of JavaScript regular expressions that the build-directory
    pattern is written in: an anchored `^…$` pattern made of literal
    characters, `.` (any character but a line terminator) and `.*`, applied
    with the `i` (ignore case) flag. `Compile` reads a pattern string into
    pieces and refuses anything outside the fragment; `Matches` is
    `RegExp.prototype.test` on the pieces. */
module Regex {
  import opened Wrappers

  datatype Piece = Lit(c: char) | AnyChar | AnyRun

  /** The characters that have a meaning of their own in a pattern outside a
      character class. */
  predicate IsSyntaxChar(c: char)
  {
    c in "^$\\.*+?()[]{}|"
  }

  /** A string that reads as literal characters and `.` wildcards only. */
  predicate IsPlain(s: string)
  {
    forall i | 0 <= i < |s| :: s[i] == '.' || !IsSyntaxChar(s[i])
  }

  /** What `.` refuses to match. */
  predicate IsLineTerminator(c: char)
  {
    c == '\n' || c == '\r' || c == '\U{2028}' || c == '\U{2029}'
  }

  predicate NoLineTerminator(s: string)
  {
    forall i | 0 <= i < |s| :: !IsLineTerminator(s[i])
  }

  /** Case folding of the `i` flag (upper-casing), on ASCII letters. */
  function Canon(c: char): char
  {
    if 'a' <= c <= 'z' then (c as int - 32) as char else c
  }

  function Prepend(p: Piece, rest: Option<seq<Piece>>): Option<seq<Piece>>
  {
    match rest
    case None => None
    case Some(ps) => Some([p] + ps)
  }

  /** Reads the text between `^` and `$`; `None` when it uses syntax outside
      the fragment. */
  function CompileBody(s: string): Option<seq<Piece>>
    decreases |s|
  {
    if s == [] then Some([])
    else if s[0] == '.' then
      if |s| >= 2 && s[1] == '*' then Prepend(AnyRun, CompileBody(s[2..]))
      else Prepend(AnyChar, CompileBody(s[1..]))
    else if IsSyntaxChar(s[0]) then None
    else Prepend(Lit(s[0]), CompileBody(s[1..]))
  }

  /** `new RegExp(pattern, 'i')` for a pattern anchored at both ends. */
  function Compile(pattern: string): Option<seq<Piece>>
  {
    if |pattern| >= 2 && pattern[0] == '^' && pattern[|pattern| - 1] == '$'
    then CompileBody(pattern[1..|pattern| - 1])
    else None
  }

  /** The whole of `s` is matched by `ps`. */
  predicate Matches(ps: seq<Piece>, s: string)
    decreases |ps|, |s|
  {
    if ps == [] then s == []
    else match ps[0]
      case Lit(c) => s != [] && Canon(s[0]) == Canon(c) && Matches(ps[1..], s[1..])
      case AnyChar => s != [] && !IsLineTerminator(s[0]) && Matches(ps[1..], s[1..])
      case AnyRun =>
        Matches(ps[1..], s) || (s != [] && !IsLineTerminator(s[0]) && Matches(ps, s[1..]))
  }

  /** `pattern.test(name)`. */
  predicate Test(pattern: string, name: string)
    requires Compile(pattern).Some?
  {
    Matches(Compile(pattern).value, name)
  }

  /** The pieces a plain segment compiles to, one per character. */
  function Seg(t: string): (ps: seq<Piece>)
    ensures |ps| == |t|
  {
    if t == [] then []
    else [if t[0] == '.' then AnyChar else Lit(t[0])] + Seg(t[1..])
  }

  /** One character of a plain segment accepts one character of a name. */
  predicate CharFits(t: char, u: char)
  {
    if t == '.' then !IsLineTerminator(u) else Canon(u) == Canon(t)
  }

  /** A plain segment accepts a same-length stretch of a name. */
  predicate SegFits(t: string, u: string)
  {
    |t| == |u| && forall i | 0 <= i < |t| :: CharFits(t[i], u[i])
  }

  function PrependAll(ps: seq<Piece>, rest: Option<seq<Piece>>): Option<seq<Piece>>
  {
    match rest
    case None => None
    case Some(qs) => Some(ps + qs)
  }

  /** A plain segment compiles character by character, provided what follows
      it does not begin with a `*` that would turn its last `.` into `.*`. */
  lemma {:induction false} CompilePlain(t: string, r: string)
    requires IsPlain(t)
    requires r == [] || r[0] != '*'
    ensures CompileBody(t + r) == PrependAll(Seg(t), CompileBody(r))
    decreases |t|
  {
    if t != [] {
      var s := t + r;
      var p := if t[0] == '.' then AnyChar else Lit(t[0]);
      assert CompileBody(s) == Prepend(p, CompileBody(t[1..] + r)) by {
        assert s[0] == t[0];
        assert s[1..] == t[1..] + r;
        assert |s| >= 2 ==> s[1] != '*' by {
          if |t| >= 2 {
            assert s[1] == t[1];
          } else if |s| >= 2 {
            assert s[1] == r[0];
          }
        }
      }
      CompilePlain(t[1..], r);
      if CompileBody(r).Some? {
        PieceAssoc([p], Seg(t[1..]), CompileBody(r).value);
      }
    } else {
      assert t + r == r;
      if CompileBody(r).Some? {
        assert Seg(t) + CompileBody(r).value == CompileBody(r).value;
      }
    }
  }

  /** A `.*` in the pattern text compiles to one `AnyRun`. */
  lemma CompileRun(r: string)
    ensures CompileBody(".*" + r) == Prepend(AnyRun, CompileBody(r))
  {
    assert (".*" + r)[2..] == r;
  }

  /** The pieces of a plain segment take exactly as many characters as the
      segment has, each accepted by `CharFits`. */
  lemma {:induction false} MatchesSeg(t: string, rest: seq<Piece>, s: string)
    ensures Matches(Seg(t) + rest, s) <==>
      |t| <= |s| && SegFits(t, s[..|t|]) && Matches(rest, s[|t|..])
    decreases |t|
  {
    if t == [] {
      assert Seg(t) + rest == rest;
    } else {
      var ps := Seg(t) + rest;
      assert ps[1..] == Seg(t[1..]) + rest;
      MatchesSeg(t[1..], rest, if s == [] then s else s[1..]);
      if s != [] && |t| <= |s| {
        assert s[1..][..|t| - 1] == s[..|t|][1..];
        assert s[1..][|t| - 1..] == s[|t|..];
        assert SegFits(t, s[..|t|]) <==> CharFits(t[0], s[0]) && SegFits(t[1..], s[..|t|][1..]) by {
          if CharFits(t[0], s[0]) && SegFits(t[1..], s[..|t|][1..]) {
            forall i | 0 <= i < |t| ensures CharFits(t[i], s[..|t|][i]) {
              if i > 0 {
                assert t[i] == t[1..][i - 1];
              }
            }
          }
          if SegFits(t, s[..|t|]) {
            forall i | 0 <= i < |t| - 1 ensures CharFits(t[1..][i], s[..|t|][1..][i]) {
              assert CharFits(t[i + 1], s[..|t|][i + 1]);
            }
          }
        }
      }
    }
  }

  /** `.*` followed by `rest` accepts a name exactly when some prefix free of
      line terminators is followed by what `rest` accepts. */
  lemma {:induction false} MatchesRun(rest: seq<Piece>, s: string)
    ensures Matches([AnyRun] + rest, s) <==>
      exists k | 0 <= k <= |s| :: NoLineTerminator(s[..k]) && Matches(rest, s[k..])
    decreases |s|
  {
    var ps := [AnyRun] + rest;
    assert ps[1..] == rest;
    if Matches(ps, s) {
      if Matches(rest, s) {
        assert NoLineTerminator(s[..0]) && Matches(rest, s[0..]);
      } else {
        MatchesRun(rest, s[1..]);
        var k :| 0 <= k <= |s| - 1 && NoLineTerminator(s[1..][..k]) && Matches(rest, s[1..][k..]);
        assert s[..k + 1] == [s[0]] + s[1..][..k];
        assert s[k + 1..] == s[1..][k..];
        assert NoLineTerminator(s[..k + 1]) && Matches(rest, s[k + 1..]);
      }
    }
    if exists k | 0 <= k <= |s| :: NoLineTerminator(s[..k]) && Matches(rest, s[k..]) {
      var k :| 0 <= k <= |s| && NoLineTerminator(s[..k]) && Matches(rest, s[k..]);
      if k > 0 {
        MatchesRun(rest, s[1..]);
        assert s[1..][..k - 1] == s[..k][1..];
        assert s[1..][k - 1..] == s[k..];
        assert !IsLineTerminator(s[..k][0]);
        assert NoLineTerminator(s[1..][..k - 1]) && Matches(rest, s[1..][k - 1..]);
      } else {
        assert s[0..] == s;
      }
    }
  }

  /** A plain segment alone accepts exactly the names it fits. */
  lemma MatchesSegOnly(t: string, s: string)
    ensures Matches(Seg(t), s) <==> SegFits(t, s)
  {
    MatchesSeg(t, [], s);
    assert Seg(t) + [] == Seg(t);
    if |t| <= |s| {
      assert Matches([], s[|t|..]) <==> |t| == |s|;
      assert |t| == |s| ==> s[..|t|] == s;
    }
  }

  lemma PlainConcat(a: string, b: string)
    requires IsPlain(a) && IsPlain(b)
    ensures IsPlain(a + b)
  {
    forall i | 0 <= i < |a + b| ensures (a + b)[i] == '.' || !IsSyntaxChar((a + b)[i]) {
      if i >= |a| {
        assert (a + b)[i] == b[i - |a|];
      }
    }
  }

  /** What `.*` followed by the segment `t` asks of a name `u`. */
  predicate RunSegFits(t: string, u: string)
  {
    |t| <= |u| && NoLineTerminator(u[..|u| - |t|]) && SegFits(t, u[|u| - |t|..])
  }

  /** `.*` followed by a plain segment accepts a name exactly when the name
      ends in a stretch the segment fits and has no line terminator before
      it. */
  lemma MatchesRunSeg(t: string, u: string)
    ensures Matches([AnyRun] + Seg(t), u) <==> RunSegFits(t, u)
  {
    MatchesRun(Seg(t), u);
    forall k | 0 <= k <= |u| ensures Matches(Seg(t), u[k..]) <==> SegFits(t, u[k..]) {
      MatchesSegOnly(t, u[k..]);
    }
    if |t| <= |u| && NoLineTerminator(u[..|u| - |t|]) && SegFits(t, u[|u| - |t|..]) {
      var k := |u| - |t|;
      assert NoLineTerminator(u[..k]) && Matches(Seg(t), u[k..]);
    }
  }

  /** A `-` splits a stretch free of line terminators into two such
      stretches. */
  lemma SplitAtDash(m: string, k: nat)
    requires k < |m| && m[k] == '-' && NoLineTerminator(m)
    ensures NoLineTerminator(m[..k]) && NoLineTerminator(m[k + 1..])
  {
    assert forall i | 0 <= i < k :: m[..k][i] == m[i];
    assert forall i | k + 1 <= i < |m| :: m[k + 1..][i - k - 1] == m[i];
  }

  /** Two stretches free of line terminators joined by a `-` are one. */
  lemma JoinAtDash(m: string, k: nat)
    requires k < |m| && m[k] == '-'
    requires NoLineTerminator(m[..k]) && NoLineTerminator(m[k + 1..])
    ensures NoLineTerminator(m)
  {
    forall i | 0 <= i < |m| ensures !IsLineTerminator(m[i]) {
      if i < k {
        assert m[i] == m[..k][i];
      } else if i > k {
        assert m[i] == m[k + 1..][i - k - 1];
      }
    }
  }

  /** `-` followed by `.*` and a plain segment, taken one step. */
  lemma MatchesDashRunSeg(t: string, v: string)
    ensures Matches([Lit('-')] + ([AnyRun] + Seg(t)), v) <==>
      |v| > 0 && v[0] == '-' && RunSegFits(t, v[1..])
  {
    MatchesDash([AnyRun] + Seg(t), v);
    if |v| > 0 {
      MatchesRunSeg(t, v[1..]);
    }
  }

  /** A literal `-` takes exactly a `-`, whatever the case folding. */
  lemma MatchesDash(rest: seq<Piece>, v: string)
    ensures Matches([Lit('-')] + rest, v) <==> |v| > 0 && v[0] == '-' && Matches(rest, v[1..])
  {
    assert ([Lit('-')] + rest)[1..] == rest;
  }

  /** What `.*-.*` followed by the segment `t` asks of a name `u`. */
  predicate RunDashRunFits(t: string, u: string)
  {
    |t| <= |u| && NoLineTerminator(u[..|u| - |t|]) && '-' in u[..|u| - |t|] &&
    SegFits(t, u[|u| - |t|..])
  }

  lemma RunDashRunForward(t: string, u: string, k: nat)
    requires k <= |u| && NoLineTerminator(u[..k])
    requires Matches([Lit('-')] + ([AnyRun] + Seg(t)), u[k..])
    ensures RunDashRunFits(t, u)
  {
    MatchesDashRunSeg(t, u[k..]);
    var m := u[..|u| - |t|];
    assert m[..k] == u[..k];
    assert m[k + 1..] == u[k..][1..][..|u| - k - 1 - |t|];
    assert u[k..][|u| - k - |t|..] == u[|u| - |t|..];
    JoinAtDash(m, k);
  }

  lemma RunDashRunBackward(t: string, u: string)
    requires RunDashRunFits(t, u)
    ensures exists k | 0 <= k <= |u| ::
      NoLineTerminator(u[..k]) && Matches([Lit('-')] + ([AnyRun] + Seg(t)), u[k..])
  {
    var m := u[..|u| - |t|];
    var k :| 0 <= k < |m| && m[k] == '-';
    SplitAtDash(m, k);
    MatchesDashRunSeg(t, u[k..]);
    assert m[..k] == u[..k];
    assert m[k + 1..] == u[k..][1..][..|u| - k - 1 - |t|];
    assert u[k..][|u| - k - |t|..] == u[|u| - |t|..];
  }

  /** `.*-.*` followed by a plain segment accepts a name exactly when the
      name ends in a stretch the segment fits, and what comes before it has
      no line terminator and holds a `-`. */
  lemma MatchesRunDashRunSeg(t: string, u: string)
    ensures Matches([AnyRun, Lit('-'), AnyRun] + Seg(t), u) <==> RunDashRunFits(t, u)
  {
    var rest := [Lit('-')] + ([AnyRun] + Seg(t));
    assert [AnyRun, Lit('-'), AnyRun] + Seg(t) == [AnyRun] + rest;
    MatchesRun(rest, u);
    if Matches([AnyRun] + rest, u) {
      var k :| 0 <= k <= |u| && NoLineTerminator(u[..k]) && Matches(rest, u[k..]);
      RunDashRunForward(t, u, k);
    }
    if RunDashRunFits(t, u) {
      RunDashRunBackward(t, u);
    }
  }

  /** The pieces of a pattern that is a plain head, `.*` (or `.*-.*` when
      `dash`), and a plain tail. */
  function Shape(h: string, t: string, dash: bool): seq<Piece>
  {
    Seg(h) + (if dash then [AnyRun, Lit('-'), AnyRun] else [AnyRun]) + Seg(t)
  }

  /** What such a pattern asks of a name, stated without the pieces: the
      name starts with a stretch the head fits and ends with a stretch the
      tail fits; what lies between has no line terminator, and holds a `-`
      when `dash`. */
  predicate ShapeFits(h: string, t: string, dash: bool, name: string)
  {
    && |h| + |t| <= |name|
    && SegFits(h, name[..|h|])
    && SegFits(t, name[|name| - |t|..])
    && NoLineTerminator(name[|h|..|name| - |t|])
    && (dash ==> '-' in name[|h|..|name| - |t|])
  }

  lemma MatchesShape(h: string, t: string, dash: bool, name: string)
    ensures Matches(Shape(h, t, dash), name) <==> ShapeFits(h, t, dash, name)
  {
    var rest := if dash then [AnyRun, Lit('-'), AnyRun] + Seg(t) else [AnyRun] + Seg(t);
    assert Shape(h, t, dash) == Seg(h) + rest;
    MatchesSeg(h, rest, name);
    if |h| <= |name| {
      var u := name[|h|..];
      if dash {
        MatchesRunDashRunSeg(t, u);
      } else {
        MatchesRunSeg(t, u);
      }
      if |t| <= |u| {
        assert u[..|u| - |t|] == name[|h|..|name| - |t|];
        assert u[|u| - |t|..] == name[|name| - |t|..];
      }
    }
  }

  lemma CompileSeg(t: string)
    requires IsPlain(t)
    ensures CompileBody(t) == Some(Seg(t))
  {
    CompilePlain(t, []);
    assert t + [] == t;
    assert Seg(t) + [] == Seg(t);
  }

  /** What follows the first `.*` of such a pattern: the tail, behind `-.*`
      when `dash`. */
  function MidPieces(t: string, dash: bool): seq<Piece>
  {
    if dash then [Lit('-'), AnyRun] + Seg(t) else Seg(t)
  }

  lemma CompileMid(t: string, dash: bool)
    requires IsPlain(t)
    ensures CompileBody(if dash then "-" + ".*" + t else t) == Some(MidPieces(t, dash))
  {
    CompileSeg(t);
    if dash {
      CompileRun(t);
      CompilePlain("-", ".*" + t);
      assert "-" + (".*" + t) == "-" + ".*" + t;
      assert Seg("-") == [Lit('-')];
      assert CompileBody(".*" + t) == Some([AnyRun] + Seg(t));
      assert CompileBody("-" + ".*" + t) == Some([Lit('-')] + ([AnyRun] + Seg(t)));
      assert [Lit('-')] + ([AnyRun] + Seg(t)) == [Lit('-'), AnyRun] + Seg(t);
    }
  }

  lemma CompileAfterRun(mid: string, pm: seq<Piece>)
    requires CompileBody(mid) == Some(pm)
    ensures CompileBody(".*" + mid) == Some([AnyRun] + pm)
  {
    CompileRun(mid);
  }

  lemma CompileBeforeRun(h: string, r: string, ps: seq<Piece>)
    requires IsPlain(h) && |r| > 0 && r[0] == '.'
    requires CompileBody(r) == Some(ps)
    ensures CompileBody(h + r) == Some(Seg(h) + ps)
  {
    CompilePlain(h, r);
  }

  lemma ShapeSplit(h: string, t: string, dash: bool)
    ensures Seg(h) + ([AnyRun] + MidPieces(t, dash)) == Shape(h, t, dash)
  {
    if dash {
      assert [AnyRun] + MidPieces(t, dash) == [AnyRun, Lit('-'), AnyRun] + Seg(t);
    }
  }

  /** The text of a plain head, `.*` (or `.*-.*`), and a plain tail compiles
      to `Shape`. */
  lemma CompileShape(h: string, t: string, dash: bool)
    requires IsPlain(h) && IsPlain(t)
    ensures CompileBody(h + ".*" + (if dash then "-" + ".*" + t else t)) == Some(Shape(h, t, dash))
  {
    var mid := if dash then "-" + ".*" + t else t;
    CompileMid(t, dash);
    CompileAfterRun(mid, MidPieces(t, dash));
    CompileBeforeRun(h, ".*" + mid, [AnyRun] + MidPieces(t, dash));
    assert h + (".*" + mid) == h + ".*" + mid;
    ShapeSplit(h, t, dash);
  }

  // ---- Proof helpers ----
  // The lemma below states nothing about patterns: it regroups a
  // concatenation, a rewriting the solver does not find unaided.

  lemma PieceAssoc(a: seq<Piece>, b: seq<Piece>, c: seq<Piece>)
    ensures a + (b + c) == (a + b) + c
  {
  }
}
