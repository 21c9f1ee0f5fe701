/** Build-selector resolution (index.js:138-156): from a normalised selector
    the script derives the anchored, case-insensitive pattern that the
    nightly build directory must match, and the two local file names the
    downloads are saved under. */
module Resolver {
  import opened Wrappers
  import opened Strings
  import opened Regex
  import opened Sanitizer
  import opened Selector

  /** `latest` or the rendered date. */
  function DateBit(date: Option<string>): string
  {
    match date
    case None => "latest"
    case Some(d) => d
  }

  /** A channel with a digit becomes a version token: `.*v` and the channel
      with its first `.` turned into `_` (`1.4` gives `.*v1_4`). */
  function ChannelBit(channel: string): string
  {
    if HasDigit(channel) then ".*v" + ReplaceFirst(channel, '.', '_') else channel
  }

  function EngBits(eng: bool): seq<string>
  {
    if eng then ["eng"] else []
  }

  /** The directory-name pieces, in pattern order. */
  function PathBits(sel: Selector): seq<string>
  {
    [DateBit(sel.date), ".*", ChannelBit(sel.channel), sel.device] + EngBits(sel.eng)
  }

  /** The file-name pieces, in name order. */
  function NameBits(sel: Selector): seq<string>
  {
    [sel.device, ChannelBit(sel.channel)] + EngBits(sel.eng) + [DateBit(sel.date)]
  }

  /** The source text of the directory pattern. */
  function PatternOf(sel: Selector): string
  {
    "^" + Join(PathBits(sel), "-") + "$"
  }

  /** The sanitised file-name stem shared by both downloads. */
  function SafeName(sel: Selector): string
  {
    Sanitize(Join(NameBits(sel), "-"))
  }

  function GaiaPath(dir: string, sel: Selector): string
  {
    JoinPath(dir, "gaia-" + SafeName(sel) + ".zip")
  }

  function B2gPath(dir: string, sel: Selector): string
  {
    JoinPath(dir, "b2g-" + SafeName(sel) + ".tar.gz")
  }

  datatype Resolution = Resolution(pattern: string, gaiaPath: string, b2gPath: string)

  /** index.js:138-156 as written: the channel bit is rewritten in place and
      the two lists of pieces are grown with `push`. */
  method Resolve(sel: Selector, dir: string) returns (res: Resolution)
    ensures res.pattern == PatternOf(sel)
    ensures res.gaiaPath == GaiaPath(dir, sel)
    ensures res.b2gPath == B2gPath(dir, sel)
    ensures res.gaiaPath != res.b2gPath
  {
    var dateBit := DateBit(sel.date);
    var channelBit := sel.channel;
    if HasDigit(channelBit) {
      channelBit := ".*v" + ReplaceFirst(channelBit, '.', '_');
    }
    var pathBits := [dateBit, ".*", channelBit, sel.device];
    var nameBits := [sel.device, channelBit];
    if sel.eng {
      pathBits := pathBits + ["eng"];
      nameBits := nameBits + ["eng"];
    }
    nameBits := nameBits + [dateBit];
    assert channelBit == ChannelBit(sel.channel);
    assert pathBits == PathBits(sel);
    assert nameBits == NameBits(sel);
    var pattern := "^" + Join(pathBits, "-") + "$";
    var safeNameBits := Sanitize(Join(nameBits, "-"));
    res := Resolution(
      pattern,
      JoinPath(dir, "gaia-" + safeNameBits + ".zip"),
      JoinPath(dir, "b2g-" + safeNameBits + ".tar.gz"));
    LocalPathsDiffer(dir, sel);
  }

  /** The two downloads never share a local path: one ends in `.zip`, the
      other in `.tar.gz`. */
  lemma LocalPathsDiffer(dir: string, sel: Selector)
    ensures GaiaPath(dir, sel) != B2gPath(dir, sel)
  {
    var g, b := GaiaPath(dir, sel), B2gPath(dir, sel);
    var gn, bn := "gaia-" + SafeName(sel) + ".zip", "b2g-" + SafeName(sel) + ".tar.gz";
    assert g[|g| - 1] == gn[|gn| - 1] == 'p';
    assert b[|b| - 1] == bn[|bn| - 1] == 'z';
  }

  /** ---- What the pattern means ---- */

  function EngSuffix(eng: bool): string
  {
    if eng then "-eng" else ""
  }

  /** The literal text before the first `.*`. */
  function Head(sel: Selector): string
  {
    DateBit(sel.date) + "-"
  }

  /** The literal text after the last `.*`. */
  function Tail(sel: Selector): string
  {
    (if HasDigit(sel.channel) then "v" + ReplaceFirst(sel.channel, '.', '_')
     else "-" + sel.channel) + "-" + sel.device + EngSuffix(sel.eng)
  }

  /** Selector strings that read as literal text (with `.` as a wildcard)
      when put into a pattern. */
  predicate PlainSelector(sel: Selector)
  {
    IsPlain(DateBit(sel.date)) && IsPlain(sel.channel) && IsPlain(sel.device)
  }

  /** The directory names a selector asks for, stated without the pattern:
      the name begins with the date and a dash and ends with the channel (or
      its version token), the device and `eng` if asked for, all compared
      ignoring ASCII case; what lies between has no line break, and for a
      numbered channel it holds a dash. */
  predicate Fits(sel: Selector, name: string)
  {
    ShapeFits(Head(sel), Tail(sel), HasDigit(sel.channel), name)
  }

  lemma JoinDashes(a: string, b: string, c: string, d: string, eng: bool)
    ensures Join([a, b, c, d] + EngBits(eng), "-") == a + "-" + b + "-" + c + "-" + d + EngSuffix(eng)
  {
    var e, x := EngBits(eng), EngSuffix(eng);
    assert Join([d] + e, "-") == d + x by {
      if eng {
        JoinCons(d, ["eng"], "-");
      } else {
        assert [d] + e == [d];
      }
    }
    assert Join([c, d] + e, "-") == c + "-" + (d + x) by {
      assert [c, d] + e == [c] + ([d] + e);
      JoinCons(c, [d] + e, "-");
    }
    assert Join([b, c, d] + e, "-") == b + "-" + (c + "-" + (d + x)) by {
      assert [b, c, d] + e == [b] + ([c, d] + e);
      JoinCons(b, [c, d] + e, "-");
    }
    assert Join([a, b, c, d] + e, "-") == a + "-" + (b + "-" + (c + "-" + (d + x))) by {
      assert [a, b, c, d] + e == [a] + ([b, c, d] + e);
      JoinCons(a, [b, c, d] + e, "-");
    }
    DashChain(a, b, c, d, x);
  }

  /** The pattern's text between `^` and `$`, cut at its wildcards. */
  lemma BodyShape(sel: Selector)
    ensures Join(PathBits(sel), "-") ==
      Head(sel) + ".*" + (if HasDigit(sel.channel) then "-" + ".*" + Tail(sel) else Tail(sel))
  {
    var d, e := DateBit(sel.date), EngSuffix(sel.eng);
    JoinDashes(d, ".*", ChannelBit(sel.channel), sel.device, sel.eng);
    if HasDigit(sel.channel) {
      NumberedBody(d, ReplaceFirst(sel.channel, '.', '_'), sel.device, e);
    } else {
      NamedBody(d, sel.channel, sel.device, e);
    }
  }

  lemma NumberedBody(d: string, c: string, dev: string, e: string)
    ensures d + "-" + ".*" + "-" + (".*v" + c) + "-" + dev + e ==
      d + "-" + ".*" + ("-" + ".*" + ("v" + c + "-" + dev + e))
  {
    var x := d + "-" + ".*" + "-";
    var v := "v" + c;
    assert ".*v" + c == ".*" + v by {
      assert ".*v" == ".*" + "v";
    }
    assert x + (".*" + v) + "-" + dev + e == x + ".*" + (v + "-" + dev + e);
  }

  lemma NamedBody(d: string, ch: string, dev: string, e: string)
    ensures d + "-" + ".*" + "-" + ch + "-" + dev + e ==
      d + "-" + ".*" + ("-" + ch + "-" + dev + e)
  {
  }

  lemma ReplaceFirstPlain(s: string)
    requires IsPlain(s)
    ensures IsPlain(ReplaceFirst(s, '.', '_'))
  {
    var r := ReplaceFirst(s, '.', '_');
    if '.' in s {
      var i := IndexOf(s, '.');
      forall k | 0 <= k < |r| ensures r[k] == '.' || !IsSyntaxChar(r[k]) {
        if k < i {
          assert r[k] == s[k];
        } else if k > i {
          assert r[k] == s[k];
        }
      }
    }
  }

  lemma TailPlain(sel: Selector)
    requires PlainSelector(sel)
    ensures IsPlain(Tail(sel))
    ensures Tail(sel) != [] && Tail(sel)[0] != '*'
  {
    EngPlain(sel.eng);
    if HasDigit(sel.channel) {
      var c := ReplaceFirst(sel.channel, '.', '_');
      ReplaceFirstPlain(sel.channel);
      FrontPlain('v', c);
      PlainTail(['v'] + c, sel.device, EngSuffix(sel.eng));
      assert ['v'] + c == "v" + c;
    } else {
      FrontPlain('-', sel.channel);
      PlainTail(['-'] + sel.channel, sel.device, EngSuffix(sel.eng));
      assert ['-'] + sel.channel == "-" + sel.channel;
    }
  }

  lemma EngPlain(eng: bool)
    ensures IsPlain(EngSuffix(eng))
  {
  }

  lemma FrontPlain(f: char, s: string)
    requires f == 'v' || f == '-'
    requires IsPlain(s)
    ensures IsPlain([f] + s) && ([f] + s)[0] == f
  {
    assert IsPlain([f]);
    PlainConcat([f], s);
  }

  lemma PlainTail(front: string, dev: string, e: string)
    requires IsPlain(front) && IsPlain(dev) && IsPlain(e)
    requires front != [] && front[0] != '*'
    ensures IsPlain(front + "-" + dev + e)
    ensures (front + "-" + dev + e)[0] != '*'
  {
    assert IsPlain("-");
    PlainConcat(front, "-");
    PlainConcat(front + "-", dev);
    PlainConcat(front + "-" + dev, e);
  }

  /** The pieces the pattern compiles to. */
  function Pieces(sel: Selector): seq<Piece>
  {
    Shape(Head(sel), Tail(sel), HasDigit(sel.channel))
  }

  lemma CompilePattern(sel: Selector)
    requires PlainSelector(sel)
    ensures Compile(PatternOf(sel)) == Some(Pieces(sel))
  {
    BodyShape(sel);
    var p := PatternOf(sel);
    assert p[1..|p| - 1] == Join(PathBits(sel), "-");
    assert IsPlain("-");
    PlainConcat(DateBit(sel.date), "-");
    TailPlain(sel);
    CompileShape(Head(sel), Tail(sel), HasDigit(sel.channel));
  }

  /** For plain selector strings the pattern lies in the modelled fragment
      and accepts exactly the directory names that `Fits` describes. */
  lemma PatternMeaning(sel: Selector, name: string)
    requires PlainSelector(sel)
    ensures Compile(PatternOf(sel)).Some?
    ensures Test(PatternOf(sel), name) <==> Fits(sel, name)
  {
    CompilePattern(sel);
    MatchesShape(Head(sel), Tail(sel), HasDigit(sel.channel), name);
  }

  /** The build the usage text gives as its first example, `flame 1.4`,
      looks for `^latest-.*-.*v1_4-flame$`: the literal `1.4` is gone. */
  lemma FlameVersionPattern(sel: Selector)
    requires sel == Selector("flame", "1.4", None, false)
    ensures PatternOf(sel) == "^latest-.*-.*v1_4-flame$"
  {
    VersionOneFour();
    assert PathBits(sel) == ["latest", ".*", ".*v1_4", "flame"] + EngBits(false);
    JoinDashes("latest", ".*", ".*v1_4", "flame", false);
    FlamePatternLiteral();
  }

  /** Channel `1.4` has a digit and its version token is `1_4`. */
  lemma VersionOneFour()
    ensures HasDigit("1.4")
    ensures ReplaceFirst("1.4", '.', '_') == "1_4"
    ensures ChannelBit("1.4") == ".*v1_4"
  {
    assert IsDigit("1.4"[0]);
    assert "1.4"[1..] == ".4";
    assert ReplaceFirst(".4", '.', '_') == "_4";
    assert ReplaceFirst("1.4", '.', '_') == "1_4";
  }

  /** ---- What the file names are ---- */

  lemma AllowedConcat(a: string, b: string)
    requires AllAllowed(a) && AllAllowed(b)
    ensures AllAllowed(a + b)
  {
    forall i | 0 <= i < |a + b| ensures Allowed((a + b)[i]) {
      if i >= |a| {
        assert (a + b)[i] == b[i - |a|];
      }
    }
  }

  lemma {:induction false} JoinAllowed(parts: seq<string>)
    requires forall k | 0 <= k < |parts| :: AllAllowed(parts[k])
    ensures AllAllowed(Join(parts, "-"))
  {
    if |parts| > 1 {
      JoinAllowed(parts[1..]);
      AllowedConcat(parts[0], "-");
      AllowedConcat(parts[0] + "-", Join(parts[1..], "-"));
    }
  }

  /** A named channel whose characters the sanitiser keeps (`central`,
      `aurora`) reaches the file name untouched. */
  lemma SafeNameNamedChannel(sel: Selector)
    requires !HasDigit(sel.channel)
    requires AllAllowed(sel.device) && AllAllowed(sel.channel) && AllAllowed(DateBit(sel.date))
    ensures SafeName(sel) == Join(NameBits(sel), "-")
  {
    JoinAllowed(NameBits(sel));
    SanitizeClean(Join(NameBits(sel), "-"));
  }

  lemma JoinNameDashes(a: string, b: string, eng: bool, d: string)
    ensures Join([a, b] + EngBits(eng) + [d], "-") == a + "-" + b + EngSuffix(eng) + "-" + d
  {
    var e := EngBits(eng);
    JoinCons(a, [b] + e + [d], "-");
    assert [a, b] + e + [d] == [a] + ([b] + e + [d]);
    if eng {
      JoinCons(b, ["eng", d], "-");
      JoinCons("eng", [d], "-");
      assert [b] + e + [d] == [b] + ["eng", d];
      assert ["eng", d] == ["eng"] + [d];
    } else {
      JoinCons(b, [d], "-");
      assert [b] + e + [d] == [b] + [d];
    }
  }

  /** A numbered channel reaches the file name as `_v` and its version
      token: the `.*` of the pattern collapses to one `_`, so `flame 1.4`
      downloads to `gaia-flame-_v1_4-latest.zip`. */
  lemma SafeNameNumberedChannel(sel: Selector)
    requires HasDigit(sel.channel)
    requires AllAllowed(sel.device) && AllAllowed(DateBit(sel.date))
    requires AllAllowed(ReplaceFirst(sel.channel, '.', '_'))
    ensures SafeName(sel) ==
      sel.device + "-_v" + ReplaceFirst(sel.channel, '.', '_') + EngSuffix(sel.eng) + "-" + DateBit(sel.date)
  {
    var c := ReplaceFirst(sel.channel, '.', '_');
    var d, e := DateBit(sel.date), EngSuffix(sel.eng);
    var x := sel.device + "-";
    var y := "v" + c + e + "-" + d;
    assert Join(NameBits(sel), "-") == x + ".*" + y by {
      NumberedNameJoin(sel);
    }
    assert Sanitize(x + ".*" + y) == x + "_" + y by {
      AllowedConcat(sel.device, "-");
      VersionTailAllowed(c, sel.eng, d);
      SanitizeDots(x, y);
    }
    UnderscoreVersion(sel.device, c, e, d);
  }

  /** Before sanitising, a numbered channel's name holds the `.*` of its
      version token. */
  lemma NumberedNameJoin(sel: Selector)
    requires HasDigit(sel.channel)
    ensures Join(NameBits(sel), "-") ==
      (sel.device + "-") + ".*" +
      ("v" + ReplaceFirst(sel.channel, '.', '_') + EngSuffix(sel.eng) + "-" + DateBit(sel.date))
  {
    var c := ReplaceFirst(sel.channel, '.', '_');
    var d := DateBit(sel.date);
    assert NameBits(sel) == [sel.device, ".*v" + c] + EngBits(sel.eng) + [d];
    JoinNameDashes(sel.device, ".*v" + c, sel.eng, d);
    RunBeforeVersion(sel.device, c, EngSuffix(sel.eng), d);
  }

  lemma VersionTailAllowed(c: string, eng: bool, d: string)
    requires AllAllowed(c) && AllAllowed(d)
    ensures AllAllowed("v" + c + EngSuffix(eng) + "-" + d)
  {
    AllowedConcat("v", c);
    AllowedConcat("v" + c, EngSuffix(eng));
    AllowedConcat("v" + c + EngSuffix(eng), "-");
    AllowedConcat("v" + c + EngSuffix(eng) + "-", d);
  }

  /** The `.*` between two clean stretches becomes one `_`. */
  lemma SanitizeDots(x: string, y: string)
    requires x != [] && AllAllowed(x) && AllAllowed(y)
    ensures Sanitize(x + ".*" + y) == x + "_" + y
  {
    SanitizeMaximalRun(x, ".*", y);
    SanitizeClean(x);
    SanitizeClean(y);
  }

  /** The usage text's first example, worked through: `flame 1.4` downloads
      to `gaia-flame-_v1_4-latest.zip` and `b2g-flame-_v1_4-latest.tar.gz`. */
  lemma FlameVersionFiles(dir: string, sel: Selector)
    requires sel == Selector("flame", "1.4", None, false)
    requires dir != [] && dir[|dir| - 1] != '/'
    ensures GaiaPath(dir, sel) == dir + "/gaia-flame-_v1_4-latest.zip"
    ensures B2gPath(dir, sel) == dir + "/b2g-flame-_v1_4-latest.tar.gz"
  {
    SavedUnder(dir, sel);
    FlameVersionName(sel);
    FlameGaiaLiteral();
    FlameB2gLiteral();
  }

  lemma SavedUnder(dir: string, sel: Selector)
    requires dir != [] && dir[|dir| - 1] != '/'
    ensures GaiaPath(dir, sel) == dir + ("/" + ("gaia-" + SafeName(sel) + ".zip"))
    ensures B2gPath(dir, sel) == dir + ("/" + ("b2g-" + SafeName(sel) + ".tar.gz"))
  {
  }

  lemma FlameVersionName(sel: Selector)
    requires sel == Selector("flame", "1.4", None, false)
    ensures SafeName(sel) == "flame-_v1_4-latest"
  {
    VersionOneFour();
    assert AllAllowed("flame") by {
      forall i | 0 <= i < 5 ensures IsWordChar("flame"[i]) { }
    }
    assert AllAllowed("latest") by {
      forall i | 0 <= i < 6 ensures IsWordChar("latest"[i]) { }
    }
    assert AllAllowed("1_4") by {
      forall i | 0 <= i < 3 ensures IsWordChar("1_4"[i]) { }
    }
    SafeNameNumberedChannel(sel);
    assert SafeName(sel) == "flame" + "-_v" + "1_4" + "" + "-" + "latest";
    FlameNameLiteral();
  }

  // ---- Proof helpers ----
  // The lemmas below state nothing about the script: each regroups a
  // concatenation of strings, a rewriting the solver does not find unaided.

  lemma DashChain(a: string, b: string, c: string, d: string, x: string)
    ensures a + "-" + (b + "-" + (c + "-" + (d + x))) == a + "-" + b + "-" + c + "-" + d + x
  {
    var cdx := c + "-" + (d + x);
    assert cdx == c + "-" + d + x;
    assert b + "-" + cdx == b + "-" + c + "-" + d + x;
  }

  lemma UnderscoreVersion(dev: string, c: string, e: string, d: string)
    ensures (dev + "-") + "_" + ("v" + c + e + "-" + d) == dev + "-_v" + c + e + "-" + d
  {
    assert "-_v" == "-" + "_" + "v";
  }

  lemma RunBeforeVersion(a: string, c: string, e: string, d: string)
    ensures a + "-" + (".*v" + c) + e + "-" + d == (a + "-") + ".*" + ("v" + c + e + "-" + d)
  {
    var v := "v" + c;
    assert ".*v" + c == ".*" + v by {
      assert ".*v" == ".*" + "v";
    }
    assert v + e + "-" + d == "v" + c + e + "-" + d;
  }

  lemma FlamePatternLiteral()
    ensures "^" + ("latest" + "-" + ".*" + "-" + ".*v1_4" + "-" + "flame" + "") + "$" == "^latest-.*-.*v1_4-flame$"
  {
  }

  lemma FlameNameLiteral()
    ensures "flame" + "-_v" + "1_4" + "" + "-" + "latest" == "flame-_v1_4-latest"
  {
  }

  lemma FlameGaiaLiteral()
    ensures "/" + ("gaia-" + "flame-_v1_4-latest" + ".zip") == "/gaia-flame-_v1_4-latest.zip"
  {
  }

  lemma FlameB2gLiteral()
    ensures "/" + ("b2g-" + "flame-_v1_4-latest" + ".tar.gz") == "/b2g-flame-_v1_4-latest.tar.gz"
  {
  }
}
