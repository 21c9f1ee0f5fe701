/** The command lines handed to the flashing and profile scripts
    (index.js:101-103, 120-123, 339-395). An option and its value are
    written `-p=value` on linux, whose `getopt` needs that form for an
    optional argument, and `-p value` elsewhere. */
module Commands {
  import opened Strings

  /** `argsSpace`: the separator between an option and its value. */
  function ArgsSpace(isLinux: bool): (r: string)
    ensures |r| == 1
    ensures isLinux <==> r == "="
    ensures !isLinux <==> r == " "
  {
    if isLinux then "=" else " "
  }

  /** `SCRIPT_PATH`: the `scripts` directory beside the program. */
  function ScriptDir(installDir: string): string
  {
    JoinPath(installDir, "scripts")
  }

  function FlashScript(installDir: string): string
  {
    JoinPath(ScriptDir(installDir), "shallow_flash.sh")
  }

  function BackupScript(installDir: string): string
  {
    JoinPath(ScriptDir(installDir), "backup_restore_profile.sh")
  }

  /** `profileDir`: where the profile is backed up, inside the download
      directory. */
  function ProfileDir(dir: string): string
  {
    JoinPath(dir, "flash-b2g-profile")
  }

  /** The arguments of the flash script (index.js:362-366). */
  function FlashArgs(gaiaPath: string, b2gPath: string, isLinux: bool): string
  {
    Join(["--gaia" + ArgsSpace(isLinux) + gaiaPath, "--gecko" + ArgsSpace(isLinux) + b2gPath, "-y"], " ")
  }

  /** The flash command line (index.js:369). */
  function FlashCommand(installDir: string, gaiaPath: string, b2gPath: string, isLinux: bool): string
  {
    FlashScript(installDir) + " " + FlashArgs(gaiaPath, b2gPath, isLinux)
  }

  /** The profile backup command line (index.js:341-345). */
  function BackupCommand(installDir: string, dir: string, isLinux: bool): string
  {
    Join([BackupScript(installDir), "-p" + ArgsSpace(isLinux) + ProfileDir(dir), "-b"], " ")
  }

  /** The profile restore command line (index.js:386-391). */
  function RestoreCommand(installDir: string, dir: string, isLinux: bool): string
  {
    Join([BackupScript(installDir), "-p" + ArgsSpace(isLinux) + ProfileDir(dir), "--no-reboot", "-r"], " ")
  }

  /** An option with its value, as the words the shell splits it into. */
  function OptionWords(opt: string, value: string, isLinux: bool): seq<string>
  {
    if isLinux then [opt + "=" + value] else [opt, value]
  }

  /** A non-empty path free of spaces: `Fields` keeps it as one word, and
      `/bin/sh`, which never yields an empty word, agrees. `/bin/sh`
      does the same only when the path also holds no tab, newline, quote,
      backslash, `$`, backquote, `;&|<>()`, glob character, leading `~` or
      leading `#`; those are not modelled. */
  predicate OneWord(s: string)
  {
    s != [] && ' ' !in s
  }

  lemma OneWordConcat(a: string, b: string)
    requires OneWord(a) && OneWord(b)
    ensures OneWord(a + b)
  {
    assert forall i | 0 <= i < |a + b| :: (a + b)[i] == if i < |a| then a[i] else b[i - |a|];
  }

  /** The option words joined back with spaces are the option as
      written. */
  lemma OptionText(opt: string, value: string, isLinux: bool)
    ensures Join(OptionWords(opt, value, isLinux), " ") == opt + ArgsSpace(isLinux) + value
  {
    if !isLinux {
      JoinCons(opt, [value], " ");
    }
  }

  lemma OptionOneWord(opt: string, value: string, isLinux: bool)
    requires OneWord(opt) && OneWord(value)
    ensures forall k | 0 <= k < |OptionWords(opt, value, isLinux)| :: OneWord(OptionWords(opt, value, isLinux)[k])
  {
    OneWordConcat(opt, "=");
    OneWordConcat(opt + "=", value);
  }

  /** The fixed names and flags hold no space. */
  lemma ScriptsWord()
    ensures OneWord("scripts")
  {
  }

  lemma FlashWords()
    ensures OneWord("shallow_flash.sh")
    ensures OneWord("--gaia") && OneWord("--gecko") && OneWord("-y")
  {
  }

  lemma ProfileWords()
    ensures OneWord("backup_restore_profile.sh")
    ensures OneWord("flash-b2g-profile") && OneWord("-p")
  {
  }

  lemma RestoreWords()
    ensures OneWord("-b") && OneWord("--no-reboot") && OneWord("-r")
  {
  }

  lemma JoinPathOneWord(dir: string, name: string)
    requires OneWord(dir) && OneWord(name)
    ensures OneWord(JoinPath(dir, name))
  {
    OneWordConcat(dir, name);
    OneWordConcat(dir, "/");
    OneWordConcat(dir + "/", name);
  }

  lemma ScriptOneWord(installDir: string, name: string)
    requires OneWord(installDir) && OneWord(name)
    ensures OneWord(JoinPath(ScriptDir(installDir), name))
  {
    ScriptsWord();
    JoinPathOneWord(installDir, "scripts");
    JoinPathOneWord(ScriptDir(installDir), name);
  }

  /** With paths free of spaces, the flash script receives exactly the
      options `--gaia` and `--gecko` with the two packages, then `-y`; on
      linux each option and its value form one word. */
  lemma FlashCommandWords(installDir: string, gaiaPath: string, b2gPath: string, isLinux: bool)
    requires OneWord(installDir) && OneWord(gaiaPath) && OneWord(b2gPath)
    ensures Fields(FlashCommand(installDir, gaiaPath, b2gPath, isLinux)) ==
      [FlashScript(installDir)] + OptionWords("--gaia", gaiaPath, isLinux) +
      (OptionWords("--gecko", b2gPath, isLinux) + ["-y"])
  {
    var script := FlashScript(installDir);
    var g := OptionWords("--gaia", gaiaPath, isLinux);
    var b := OptionWords("--gecko", b2gPath, isLinux);
    var gs, bs := Join(g, " "), Join(b, " ");
    OptionText("--gaia", gaiaPath, isLinux);
    OptionText("--gecko", b2gPath, isLinux);
    JoinCons(gs, [bs, "-y"], " ");
    JoinCons(bs, ["-y"], " ");
    assert FlashArgs(gaiaPath, b2gPath, isLinux) == gs + " " + (bs + " " + "-y");
    JoinConcat(b, ["-y"], " ");
    assert Join(b + ["-y"], " ") == bs + " " + "-y";
    var x := script + " ";
    Reassoc(x, gs + " ", Join(b + ["-y"], " "));
    Reassoc(x, gs, " ");
    FlashWords();
    ScriptOneWord(installDir, "shallow_flash.sh");
    OptionOneWord("--gaia", gaiaPath, isLinux);
    OptionOneWord("--gecko", b2gPath, isLinux);
    SpaceFreeWords(b + ["-y"], b, ["-y"], []);
    TwoPartWords(script, g, b + ["-y"]);
  }

  /** The profile directory behind `-p`, with no space in its words. */
  lemma ProfileOption(dir: string, isLinux: bool)
    requires OneWord(dir)
    ensures Join(OptionWords("-p", ProfileDir(dir), isLinux), " ") == "-p" + ArgsSpace(isLinux) + ProfileDir(dir)
    ensures forall k | 0 <= k < |OptionWords("-p", ProfileDir(dir), isLinux)| ::
      OneWord(OptionWords("-p", ProfileDir(dir), isLinux)[k])
  {
    OptionText("-p", ProfileDir(dir), isLinux);
    ProfileWords();
    JoinPathOneWord(dir, "flash-b2g-profile");
    OptionOneWord("-p", ProfileDir(dir), isLinux);
  }

  /** With paths free of spaces, the backup script receives the profile
      directory behind `-p`, then `-b`. */
  lemma BackupCommandWords(installDir: string, dir: string, isLinux: bool)
    requires OneWord(installDir) && OneWord(dir)
    ensures Fields(BackupCommand(installDir, dir, isLinux)) ==
      [BackupScript(installDir)] + OptionWords("-p", ProfileDir(dir), isLinux) + ["-b"]
  {
    var script := BackupScript(installDir);
    JoinThree(script, "-p" + ArgsSpace(isLinux) + ProfileDir(dir), "-b");
    ProfileOption(dir, isLinux);
    ProfileWords();
    RestoreWords();
    ScriptOneWord(installDir, "backup_restore_profile.sh");
    TwoPartWords(script, OptionWords("-p", ProfileDir(dir), isLinux), ["-b"]);
  }

  /** With paths free of spaces, the restore script receives the profile
      directory behind `-p`, then `--no-reboot` and `-r`. */
  lemma RestoreCommandWords(installDir: string, dir: string, isLinux: bool)
    requires OneWord(installDir) && OneWord(dir)
    ensures Fields(RestoreCommand(installDir, dir, isLinux)) ==
      [BackupScript(installDir)] + OptionWords("-p", ProfileDir(dir), isLinux) + ["--no-reboot", "-r"]
  {
    var script := BackupScript(installDir);
    JoinFour(script, "-p" + ArgsSpace(isLinux) + ProfileDir(dir), "--no-reboot", "-r");
    JoinCons("--no-reboot", ["-r"], " ");
    ProfileOption(dir, isLinux);
    ProfileWords();
    RestoreWords();
    ScriptOneWord(installDir, "backup_restore_profile.sh");
    TwoPartWords(script, OptionWords("-p", ProfileDir(dir), isLinux), ["--no-reboot", "-r"]);
  }

  /** The shell splits `script opt… last` at its spaces into those words
      when none of them holds a space. */
  lemma TwoPartWords(script: string, opt: seq<string>, last: seq<string>)
    requires OneWord(script)
    requires |opt| >= 1 && |last| >= 1
    requires forall k | 0 <= k < |opt| :: OneWord(opt[k])
    requires forall k | 0 <= k < |last| :: OneWord(last[k])
    ensures Fields(script + " " + Join(opt, " ") + " " + Join(last, " ")) == [script] + opt + last
  {
    ThreePartJoin(script, opt, last);
    SpaceFreeWords([script] + opt + last, [script], opt, last);
    Words([script] + opt + last);
  }

  lemma ThreePartJoin(script: string, opt: seq<string>, last: seq<string>)
    requires |opt| >= 1 && |last| >= 1
    ensures Join([script] + opt + last, " ") == script + " " + Join(opt, " ") + " " + Join(last, " ")
  {
    var j1, j2 := Join(opt, " "), Join(last, " ");
    assert [script] + (opt + last) == [script] + opt + last;
    JoinConcat(opt, last, " ");
    JoinCons(script, opt + last, " ");
    var x := script + " ";
    Reassoc(x, j1 + " ", j2);
    Reassoc(x, j1, " ");
  }

  /** Words that hold no space come back out of the line they make. */
  lemma Words(words: seq<string>)
    requires |words| >= 1
    requires forall k | 0 <= k < |words| :: OneWord(words[k])
    ensures Fields(Join(words, " ")) == words
  {
    SplitJoin(words, ' ');
  }

  lemma SpaceFreeWords(words: seq<string>, a: seq<string>, b: seq<string>, c: seq<string>)
    requires words == a + b + c
    requires forall k | 0 <= k < |a| :: OneWord(a[k])
    requires forall k | 0 <= k < |b| :: OneWord(b[k])
    requires forall k | 0 <= k < |c| :: OneWord(c[k])
    ensures forall k | 0 <= k < |words| :: OneWord(words[k])
  {
    forall k | 0 <= k < |words| ensures OneWord(words[k]) {
      if k < |a| {
        assert words[k] == a[k];
      } else if k < |a| + |b| {
        assert words[k] == b[k - |a|];
      } else {
        assert words[k] == c[k - |a| - |b|];
      }
    }
  }

  // ---- Proof helpers ----
  // The lemmas below state nothing about the script: each regroups a
  // concatenation of strings, a rewriting the solver does not find unaided.

  lemma JoinThree(a: string, b: string, c: string)
    ensures Join([a, b, c], " ") == a + " " + b + " " + c
  {
    JoinCons(a, [b, c], " ");
    JoinCons(b, [c], " ");
  }

  lemma JoinFour(a: string, b: string, c: string, d: string)
    ensures Join([a, b, c, d], " ") == a + " " + b + " " + (c + " " + d)
  {
    JoinCons(a, [b, c, d], " ");
    JoinCons(b, [c, d], " ");
    JoinCons(c, [d], " ");
  }
}
