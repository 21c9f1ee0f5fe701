/** The preference commands of the development-mode setup (index.js:158-164,
    211-224): each preference becomes `echo 'user_pref(KEY, VALUE);' >>
    prefs.js`, with key and value written by `JSON.stringify`; the lines
    follow a `cd` into the profile and are joined with ` && `; the whole
    script is put between double quotes behind `adb shell`, each `"` in it
    written `\"`. */
module Prefs {
  import opened Wrappers
  import opened Strings

  /** A preference value: Gecko preferences are booleans, integers or
      strings. */
  datatype PrefValue = BoolPref(b: bool) | IntPref(n: int) | StringPref(s: string)

  /** ---- `JSON.stringify` of a string ---- */

  function HexDigit(n: nat): (c: char)
    requires n < 16
  {
    if n < 10 then ('0' as int + n) as char else ('a' as int + n - 10) as char
  }

  /** The value of a hexadecimal digit, either case. */
  function HexValue(c: char): (r: Option<nat>)
    ensures r.Some? ==> r.value < 16
  {
    if '0' <= c <= '9' then Some(c as int - '0' as int)
    else if 'a' <= c <= 'f' then Some(c as int - 'a' as int + 10)
    else if 'A' <= c <= 'F' then Some(c as int - 'A' as int + 10)
    else None
  }

  lemma HexDigitValue(n: nat)
    requires n < 16
    ensures HexValue(HexDigit(n)) == Some(n)
  {
  }

  /** How `JSON.stringify` writes one character of a string. */
  function EscapeChar(c: char): (r: string)
    ensures |r| >= 1
  {
    if c == '"' then "\\\""
    else if c == '\\' then "\\\\"
    else if c == '\U{8}' then "\\b"
    else if c == '\U{C}' then "\\f"
    else if c == '\n' then "\\n"
    else if c == '\r' then "\\r"
    else if c == '\t' then "\\t"
    else if c as int < 0x20 then "\\u00" + [HexDigit(c as int / 16), HexDigit(c as int % 16)]
    else [c]
  }

  function Escaped(s: string): string
  {
    if s == [] then [] else EscapeChar(s[0]) + Escaped(s[1..])
  }

  /** `JSON.stringify(s)` for a string `s`. */
  function JsonQuote(s: string): string
  {
    "\"" + Escaped(s) + "\""
  }

  function Cons(c: char, rest: Option<string>): Option<string>
  {
    match rest
    case None => None
    case Some(t) => Some([c] + t)
  }

  /** The value of four hexadecimal digits. */
  function Hex4(s: string): (r: Option<nat>)
    requires |s| == 4
    ensures r.Some? ==> r.value < 0x10000
  {
    match (HexValue(s[0]), HexValue(s[1]), HexValue(s[2]), HexValue(s[3]))
    case (Some(a), Some(b), Some(c), Some(d)) => Some(a * 0x1000 + b * 0x100 + c * 0x10 + d)
    case _ => None
  }

  /** The character a two-character escape `\c` stands for. */
  function ShortEscape(c: char): Option<char>
  {
    if c == '"' || c == '\\' || c == '/' then Some(c)
    else if c == 'b' then Some('\U{8}')
    else if c == 'f' then Some('\U{C}')
    else if c == 'n' then Some('\n')
    else if c == 'r' then Some('\r')
    else if c == 't' then Some('\t')
    else None
  }

  /** Reads the inside of a JSON string literal back into the string it
      stands for; `None` for text that is not the inside of one. */
  function Unescaped(s: string): Option<string>
    decreases |s|
  {
    if s == [] then Some([])
    else if s[0] == '"' || s[0] as int < 0x20 then None
    else if s[0] != '\\' then Cons(s[0], Unescaped(s[1..]))
    else if |s| < 2 then None
    else if ShortEscape(s[1]).Some? then Cons(ShortEscape(s[1]).value, Unescaped(s[2..]))
    else if s[1] == 'u' && |s| >= 6 then
      match Hex4(s[2..6])
      case Some(v) =>
        if v < 0xD800 || 0xE000 <= v then Cons(v as char, Unescaped(s[6..])) else None
      case None => None
    else None
  }

  /** `JSON.parse` of a string literal. */
  function JsonUnquote(t: string): Option<string>
  {
    if |t| >= 2 && t[0] == '"' && t[|t| - 1] == '"' then Unescaped(t[1..|t| - 1]) else None
  }

  /** One escaped character reads back as itself. */
  lemma UnescapeChar(c: char, rest: string)
    ensures Unescaped(EscapeChar(c) + rest) == Cons(c, Unescaped(rest))
  {
    var e := EscapeChar(c);
    var s := e + rest;
    if |e| == 1 {
      assert s[1..] == rest;
    } else if |e| == 2 {
      assert s[2..] == rest;
    } else {
      UnescapeControl(c, rest);
    }
  }

  /** A control character written `\u00XY` reads back as itself. */
  lemma UnescapeControl(c: char, rest: string)
    requires c as int < 0x20
    requires EscapeChar(c) == "\\u00" + [HexDigit(c as int / 16), HexDigit(c as int % 16)]
    ensures Unescaped(EscapeChar(c) + rest) == Cons(c, Unescaped(rest))
  {
    var s := EscapeChar(c) + rest;
    var hi, lo := c as int / 16, c as int % 16;
    assert s[2..6] == ['0', '0', HexDigit(hi), HexDigit(lo)];
    HexDigitValue(hi);
    HexDigitValue(lo);
    assert Hex4(s[2..6]) == Some(c as int);
    assert s[6..] == rest;
  }

  lemma {:induction false} UnescapeEscaped(s: string)
    ensures Unescaped(Escaped(s)) == Some(s)
  {
    if s != [] {
      UnescapeChar(s[0], Escaped(s[1..]));
      UnescapeEscaped(s[1..]);
      assert [s[0]] + s[1..] == s;
    }
  }

  /** `JSON.parse(JSON.stringify(s)) == s` for every string. */
  lemma JsonQuoteRoundTrip(s: string)
    ensures JsonUnquote(JsonQuote(s)) == Some(s)
  {
    var t := JsonQuote(s);
    assert t[1..|t| - 1] == Escaped(s);
    UnescapeEscaped(s);
  }

  /** Characters `JSON.stringify` writes as they are. */
  predicate NeedsNoEscape(c: char)
  {
    c != '"' && c != '\\' && c as int >= 0x20
  }

  lemma {:induction false} EscapedPlain(s: string)
    requires forall i | 0 <= i < |s| :: NeedsNoEscape(s[i])
    ensures Escaped(s) == s
  {
    if s != [] {
      EscapedPlain(s[1..]);
      assert [s[0]] + s[1..] == s;
    }
  }

  /** ---- `JSON.stringify` of a number ---- */

  /** The decimal digits of `n`, without leading zeros. */
  function NatText(n: nat): (r: string)
    ensures |r| >= 1 && AllDigits(r)
    ensures r[0] == '0' ==> n == 0
  {
    if n < 10 then [('0' as int + n) as char]
    else NatText(n / 10) + [('0' as int + n % 10) as char]
  }

  /** The number a string of decimal digits stands for. */
  function DigitsValue(s: string): nat
    requires AllDigits(s)
  {
    if |s| == 1 then s[0] as int - '0' as int
    else DigitsValue(s[..|s| - 1]) * 10 + (s[|s| - 1] as int - '0' as int)
  }

  /** Reading the digits back gives the number. */
  lemma {:induction false} NatTextRoundTrip(n: nat)
    ensures DigitsValue(NatText(n)) == n
  {
    if n >= 10 {
      var r := NatText(n);
      assert r[..|r| - 1] == NatText(n / 10);
      NatTextRoundTrip(n / 10);
    }
  }

  function IntText(n: int): string
  {
    if n < 0 then "-" + NatText(-n) else NatText(n)
  }

  /** `JSON.stringify` of a preference value. */
  function ValueText(v: PrefValue): string
  {
    match v
    case BoolPref(b) => if b then "true" else "false"
    case IntPref(n) => IntText(n)
    case StringPref(s) => JsonQuote(s)
  }

  /** ---- The script ---- */

  const PROFILE_CD: string := "cd /data/b2g/mozilla/*.default/"

  /** The line `prefs.js` gets for one preference. */
  function UserPref(key: string, v: PrefValue): string
  {
    "user_pref(" + JsonQuote(key) + ", " + ValueText(v) + ");"
  }

  /** The command that appends that line (index.js:214-215). */
  function PrefCommand(key: string, v: PrefValue): string
  {
    "echo '" + UserPref(key, v) + "' >> prefs.js"
  }

  function PrefCommands(prefs: seq<(string, PrefValue)>): seq<string>
  {
    seq(|prefs|, i requires 0 <= i < |prefs| => PrefCommand(prefs[i].0, prefs[i].1))
  }

  /** `cmds` of index.js:212-216. */
  function PrefsScript(prefs: seq<(string, PrefValue)>): string
  {
    Join([PROFILE_CD] + PrefCommands(prefs), " && ")
  }

  /** The preferences object of index.js:158-164, in its own key order. */
  const DeveloperPrefs: seq<(string, PrefValue)> := [
    ("devtools.debugger.forbid-certified-apps", BoolPref(false)),
    ("devtools.debugger.prompt-connection", BoolPref(false)),
    ("b2g.adb.timeout", IntPref(0)),
    ("layout.css.report_errors", BoolPref(false))
  ]

  /** ---- Quoting for the local shell ---- */

  /** `s.replace(/"/g, '\\"')`. */
  function EscapeQuotes(s: string): (r: string)
    ensures |r| >= |s|
  {
    if s == [] then []
    else (if s[0] == '"' then "\\\"" else [s[0]]) + EscapeQuotes(s[1..])
  }

  /** The command run on the host (index.js:218-219). */
  function PrefsShellCommand(adb: string, prefs: seq<(string, PrefValue)>): string
  {
    adb + " shell \"" + EscapeQuotes(PrefsScript(prefs)) + "\""
  }

  /** How a POSIX shell reads the inside of a double-quoted word: a
      backslash keeps its meaning only before `$`, a backquote, `"`, `\`
      or a newline. `None` where the text would end the word early, leave
      it open, or start an expansion. */
  function DoubleQuoted(s: string): Option<string>
    decreases |s|
  {
    if s == [] then Some([])
    else if s[0] == '"' || s[0] == '$' || s[0] == '`' then None
    else if s[0] != '\\' then Cons(s[0], DoubleQuoted(s[1..]))
    else if |s| < 2 then None
    else if s[1] == '$' || s[1] == '`' || s[1] == '"' || s[1] == '\\' then Cons(s[1], DoubleQuoted(s[2..]))
    else if s[1] == '\n' then DoubleQuoted(s[2..])
    else Cons('\\', DoubleQuoted(s[1..]))
  }

  /** Text the shell reads literally once its quotes are escaped. */
  predicate ShellSafe(s: string)
  {
    forall i | 0 <= i < |s| :: s[i] != '\\' && s[i] != '$' && s[i] != '`'
  }

  /** Between double quotes, the escaped script reads back as the script
      itself when it holds no backslash, `$` or backquote. A backslash is
      not escaped by the replacement, so a script holding `\"` would not
      read back. */
  lemma {:induction false} EscapeQuotesReadBack(s: string)
    requires ShellSafe(s)
    ensures DoubleQuoted(EscapeQuotes(s)) == Some(s)
  {
    if s != [] {
      var e := EscapeQuotes(s);
      var head := if s[0] == '"' then "\\\"" else [s[0]];
      assert e == head + EscapeQuotes(s[1..]);
      if s[0] == '"' {
        assert e[2..] == EscapeQuotes(s[1..]);
      } else {
        assert e[1..] == EscapeQuotes(s[1..]);
      }
      EscapeQuotesReadBack(s[1..]);
      assert [s[0]] + s[1..] == s;
    }
  }

  lemma ShellSafeConcat(a: string, b: string)
    requires ShellSafe(a) && ShellSafe(b)
    ensures ShellSafe(a + b)
  {
    forall i | 0 <= i < |a + b| ensures (a + b)[i] != '\\' && (a + b)[i] != '$' && (a + b)[i] != '`' {
      if i >= |a| {
        assert (a + b)[i] == b[i - |a|];
      }
    }
  }

  lemma {:induction false} ShellSafeJoin(parts: seq<string>, sep: string)
    requires ShellSafe(sep)
    requires forall k | 0 <= k < |parts| :: ShellSafe(parts[k])
    ensures ShellSafe(Join(parts, sep))
  {
    if |parts| > 1 {
      ShellSafeJoin(parts[1..], sep);
      ShellSafeConcat(parts[0], sep);
      ShellSafeConcat(parts[0] + sep, Join(parts[1..], sep));
    }
  }

  /** A key that needs no escaping, either for JSON or for the shell. */
  predicate PlainKey(key: string)
  {
    forall i | 0 <= i < |key| :: NeedsNoEscape(key[i]) && key[i] != '$' && key[i] != '`'
  }

  /** Preferences with plain keys and no string values. */
  predicate PlainPrefs(prefs: seq<(string, PrefValue)>)
  {
    forall i | 0 <= i < |prefs| :: PlainKey(prefs[i].0) && !prefs[i].1.StringPref?
  }

  /** The fixed text of the script is read literally. */
  lemma FixedTextSafe()
    ensures ShellSafe("\"") && ShellSafe("echo '") && ShellSafe("user_pref(") && ShellSafe(", ")
    ensures ShellSafe(");") && ShellSafe("' >> prefs.js") && ShellSafe(" && ")
    ensures ShellSafe(PROFILE_CD) && ShellSafe("true") && ShellSafe("false") && ShellSafe("-")
  {
  }

  lemma ValueTextSafe(v: PrefValue)
    requires !v.StringPref?
    ensures ShellSafe(ValueText(v))
  {
    FixedTextSafe();
    if v.IntPref? {
      var d := NatText(if v.n < 0 then -v.n else v.n);
      assert ShellSafe(d) by {
        forall i | 0 <= i < |d| ensures d[i] != '\\' && d[i] != '$' && d[i] != '`' {
          assert IsDigit(d[i]);
        }
      }
      if v.n < 0 {
        ShellSafeConcat("-", d);
      }
    }
  }

  lemma UserPrefSafe(key: string, v: PrefValue)
    requires PlainKey(key)
    requires !v.StringPref?
    ensures ShellSafe(UserPref(key, v))
  {
    EscapedPlain(key);
    var q := JsonQuote(key);
    var t := ValueText(v);
    FixedTextSafe();
    ValueTextSafe(v);
    assert ShellSafe(key);
    ShellSafeConcat("\"", key);
    ShellSafeConcat("\"" + key, "\"");
    ShellSafeConcat("user_pref(", q);
    ShellSafeConcat("user_pref(" + q, ", ");
    ShellSafeConcat("user_pref(" + q + ", ", t);
    ShellSafeConcat("user_pref(" + q + ", " + t, ");");
  }

  lemma PrefCommandSafe(key: string, v: PrefValue)
    requires PlainKey(key)
    requires !v.StringPref?
    ensures ShellSafe(PrefCommand(key, v))
  {
    UserPrefSafe(key, v);
    FixedTextSafe();
    ShellSafeConcat("echo '", UserPref(key, v));
    ShellSafeConcat("echo '" + UserPref(key, v), "' >> prefs.js");
  }

  lemma ProfileCdSafe()
    ensures ShellSafe(PROFILE_CD)
  {
  }

  lemma CommandsSafe(prefs: seq<(string, PrefValue)>)
    requires PlainPrefs(prefs)
    ensures forall k | 0 <= k < |prefs| + 1 :: ShellSafe(([PROFILE_CD] + PrefCommands(prefs))[k])
  {
    var pc := PrefCommands(prefs);
    forall i | 0 <= i < |pc| ensures ShellSafe(pc[i]) {
      PrefCommandSafe(prefs[i].0, prefs[i].1);
    }
    ProfileCdSafe();
    var cmds := [PROFILE_CD] + pc;
    forall k | 0 <= k < |cmds| ensures ShellSafe(cmds[k]) {
      if k > 0 {
        assert cmds[k] == pc[k - 1];
      }
    }
  }

  lemma ScriptSafe(prefs: seq<(string, PrefValue)>)
    requires PlainPrefs(prefs)
    ensures ShellSafe(PrefsScript(prefs))
  {
    CommandsSafe(prefs);
    assert ShellSafe(" && ") by {
      FixedTextSafe();
    }
    ShellSafeJoin([PROFILE_CD] + PrefCommands(prefs), " && ");
  }

  /** With plain keys and no string values, what the device runs is
      exactly the script: the `cd` into the profile, then one `echo` per
      preference, joined with ` && `. */
  lemma PrefsShellReadBack(adb: string, prefs: seq<(string, PrefValue)>)
    requires PlainPrefs(prefs)
    ensures exists body ::
      && PrefsShellCommand(adb, prefs) == adb + " shell \"" + body + "\""
      && DoubleQuoted(body) == Some(PrefsScript(prefs))
  {
    ScriptSafe(prefs);
    EscapeQuotesReadBack(PrefsScript(prefs));
    var body := EscapeQuotes(PrefsScript(prefs));
    assert PrefsShellCommand(adb, prefs) == adb + " shell \"" + body + "\"";
  }

  /** The developer preferences have plain keys and no string values. */
  lemma DeveloperPrefsPlain()
    ensures PlainPrefs(DeveloperPrefs)
  {
    KeyPlain("devtools.debugger.forbid-certified-apps");
    KeyPlain("devtools.debugger.prompt-connection");
    KeyPlain("b2g.adb.timeout");
    KeyPlain("layout.css.report_errors");
  }

  /** Keys made of lower-case letters, digits, `.`, `-` and `_`. */
  lemma KeyPlain(key: string)
    requires forall i | 0 <= i < |key| :: 'a' <= key[i] <= 'z' || IsDigit(key[i]) || key[i] in "._-"
    ensures PlainKey(key)
  {
  }

  /** The developer preferences reach the device as the script itself. */
  lemma DeveloperPrefsReadBack(adb: string, prefs: seq<(string, PrefValue)>)
    requires prefs == DeveloperPrefs
    ensures exists body ::
      && PrefsShellCommand(adb, prefs) == adb + " shell \"" + body + "\""
      && DoubleQuoted(body) == Some(PrefsScript(prefs))
  {
    DeveloperPrefsPlain();
    PrefsShellReadBack(adb, prefs);
  }
}
