/** The build selector as the script normalises it from the command line
    (index.js:75-94): the device is lower-cased and required unless only the
    development-mode setup is asked for, an all-digit channel gains `.0`,
    and a date other than `latest` must parse. */
module Selector {
  import opened Wrappers
  import opened Strings

  /** A positional word as the option parser delivers it: kept as text, or
      read as a number. A number carries its rendering by JavaScript
      `String` (`1.10` is rendered `1.1`, zero is rendered `0`). */
  datatype Token =
    | Text(text: string)
    | Number(shown: string)

  /** The command line after option parsing, with its defaults applied
      (`channel` is `central` and `date` is `latest` unless given); an
      absent `--device` is the empty string. */
  datatype Args = Args(
    positional: seq<Token>,
    device: string,
    channel: string,
    date: string,
    eng: bool,
    help: bool,
    onlyRemotify: bool)

  /** The normalised selector; `date` is `None` for the latest build and
      otherwise the date rendered as `YYYY-MM-DD`. */
  datatype Selector = Selector(device: string, channel: string, date: Option<string>, eng: bool)

  datatype ArgError =
    | ShowHelp(missingDevice: bool)  // the usage text is printed and the script exits
    | InvalidDate                    // `Invalid \`date\` argument` is thrown
    | DeviceNotText                  // `toLowerCase` of a number throws a TypeError

  /** JavaScript truthiness of a token: the empty string and zero are
      falsy. */
  predicate Truthy(t: Token)
  {
    match t
    case Text(s) => s != ""
    case Number(shown) => shown != "0"
  }

  /** `String(t)`. */
  function Shown(t: Token): string
  {
    match t
    case Text(s) => s
    case Number(shown) => shown
  }

  /** `argv._[k]`, undefined (falsy) past the end. */
  function Positional(a: Args, k: nat): Token
  {
    if k < |a.positional| then a.positional[k] else Text("")
  }

  /** The device positional is a number, whose `toLowerCase` is undefined. */
  predicate NumericDevice(a: Args)
  {
    Positional(a, 0).Number? && Truthy(Positional(a, 0))
  }

  /** `argv._[0] || argv.device || ''`, before lower-casing, when it is a
      string. */
  function DeviceArg(a: Args): string
  {
    if Truthy(Positional(a, 0)) then Shown(Positional(a, 0)) else a.device
  }

  /** `String(argv._[1] || argv.channel)`: the channel the user named,
      before normalisation. */
  function ChannelArg(a: Args): string
  {
    if Truthy(Positional(a, 1)) then Shown(Positional(a, 1)) else a.channel
  }

  /** A date argument that asks for a dated build rather than the latest. */
  predicate DatedBuild(a: Args)
  {
    a.date != "" && a.date != "latest"
  }

  /** An all-digit channel `n` means release `n.0`; any other channel is
      taken as it is. */
  function NormalizeChannel(channel: string): (r: string)
    ensures !AllDigits(r)
    ensures StartsWith(r, channel)
    ensures r != channel <==> AllDigits(channel)
    ensures AllDigits(channel) ==> r[|channel|..] == ".0"
    ensures |r| <= |channel| + 2
  {
    if AllDigits(channel) then
      var r := channel + ".0";
      assert r[|channel|] == '.';
      assert r[..|channel|] == channel;
      r
    else channel
  }

  /** A normalised channel is never all digits, so normalising it again
      changes nothing. */
  lemma NormalizeChannelIdempotent(channel: string)
    ensures NormalizeChannel(NormalizeChannel(channel)) == NormalizeChannel(channel)
  {
  }

  /** The argument normalisation of index.js:75-94, one field at a time.
      `render` stands for the date library: it renders a date argument as
      `YYYY-MM-DD`, or gives `None` when the argument is not a date. */
  method Normalize(a: Args, render: string -> Option<string>) returns (r: Result<Selector, ArgError>)
    ensures r == Err(DeviceNotText) <==> NumericDevice(a)
    ensures r.Err? && r.error.ShowHelp? <==>
      !NumericDevice(a) && (a.help || (ToLower(DeviceArg(a)) == "" && !a.onlyRemotify))
    ensures r.Err? && r.error.ShowHelp? ==> r.error.missingDevice == (DeviceArg(a) == "")
    ensures r == Err(InvalidDate) <==>
      !NumericDevice(a) && !a.help && (ToLower(DeviceArg(a)) != "" || a.onlyRemotify) &&
      DatedBuild(a) && render(a.date).None?
    ensures r.Ok? ==> r.value.device == ToLower(DeviceArg(a))
    ensures r.Ok? ==> r.value.device != "" || a.onlyRemotify
    ensures r.Ok? ==> r.value.channel == NormalizeChannel(ChannelArg(a))
    ensures r.Ok? ==> !AllDigits(r.value.channel)
    ensures r.Ok? ==> r.value.date == (if DatedBuild(a) then render(a.date) else None)
    ensures r.Ok? ==> r.value.eng == a.eng
  {
    var first := Positional(a, 0);
    if first.Number? && Truthy(first) {
      return Err(DeviceNotText);
    }
    var device := ToLower(if Truthy(first) then first.text else a.device);
    if a.help || (device == "" && !a.onlyRemotify) {
      return Err(ShowHelp(device == ""));
    }
    var second := Positional(a, 1);
    var channel := if Truthy(second) then Shown(second) else a.channel;
    if AllDigits(channel) {
      channel := channel + ".0";
    }
    var date: Option<string> := None;
    if a.date != "" && a.date != "latest" {
      date := render(a.date);
      if date.None? {
        return Err(InvalidDate);
      }
    }
    return Ok(Selector(device, channel, date, a.eng));
  }
}
