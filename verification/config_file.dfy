/** `update_proxy_file`: the text written to the configuration file, one
    `key="value"` line per setting, values copied without escaping. Opening
    and writing the file stay outside the model. */
module ConfigFile {
  import opened Wrappers
  import opened Text

  /** The operator's six answers, in prompt order. */
  datatype Answers = Answers(
    httpProxy: string,
    httpsProxy: string,
    noProxy: string,
    sshKey: string,
    userName: string,
    password: string)

  /** The keys of the nine lines, in write order. */
  const ConfigKeys: seq<string> :=
    ["http_proxy", "https_proxy", "no_proxy", "HTTP_PROXY", "HTTPS_PROXY", "NO_PROXY", "ssh_key", "user_name", "passwd"]

  /** The value written under each key of `ConfigKeys`: the upper-case proxy
      keys repeat the values of their lower-case counterparts. */
  function FieldValues(a: Answers): seq<string> {
    [a.httpProxy, a.httpsProxy, a.noProxy, a.httpProxy, a.httpsProxy, a.noProxy, a.sshKey, a.userName, a.password]
  }

  /** One line without its terminator: `key="value"`. */
  function Assignment(key: string, value: string): string {
    key + "=\"" + value + "\""
  }

  /** Reads a line back: strips `key="` from the front and the last `"`. */
  function ParseAssignment(line: string, key: string): Option<string> {
    var head := key + "=\"";
    if |head| < |line| && line[..|head|] == head && line[|line| - 1] == '"' then Some(line[|head|..|line| - 1])
    else None
  }

  /** Stripping the key and the last quote recovers the value, whatever
      it contains, quotes included. */
  lemma AssignmentRoundTrip(key: string, value: string)
    ensures ParseAssignment(Assignment(key, value), key) == Some(value)
  {
    var head := key + "=\"";
    var line := Assignment(key, value);
    assert line == head + value + "\"";
    assert line[..|head|] == head;
    assert line[|head|..|line| - 1] == value;
  }

  /** The nine lines, in the order they are written. */
  function ConfigLines(a: Answers): (lines: seq<string>)
    ensures |lines| == |ConfigKeys|
    ensures forall i :: 0 <= i < |lines| ==> ParseAssignment(lines[i], ConfigKeys[i]) == Some(FieldValues(a)[i])
  {
    var lines := [
      Assignment("http_proxy", a.httpProxy),
      Assignment("https_proxy", a.httpsProxy),
      Assignment("no_proxy", a.noProxy),
      Assignment("HTTP_PROXY", a.httpProxy),
      Assignment("HTTPS_PROXY", a.httpsProxy),
      Assignment("NO_PROXY", a.noProxy),
      Assignment("ssh_key", a.sshKey),
      Assignment("user_name", a.userName),
      Assignment("passwd", a.password)];
    assert forall i :: 0 <= i < |lines| ==> lines[i] == Assignment(ConfigKeys[i], FieldValues(a)[i]);
    assert forall i :: 0 <= i < |lines| ==> ParseAssignment(lines[i], ConfigKeys[i]) == Some(FieldValues(a)[i]) by {
      forall i | 0 <= i < |lines| ensures ParseAssignment(lines[i], ConfigKeys[i]) == Some(FieldValues(a)[i]) {
        AssignmentRoundTrip(ConfigKeys[i], FieldValues(a)[i]);
      }
    }
    lines
  }

  /** Each line followed by a line feed, as one write per line produces. */
  function Terminated(lines: seq<string>): string {
    if |lines| == 0 then "" else lines[0] + "\n" + Terminated(lines[1..])
  }

  /** The whole file contents. */
  function ConfigText(a: Answers): string {
    Terminated(ConfigLines(a))
  }

  /** Reads the values back line by line, each under its expected key. */
  function ParseValues(lines: seq<string>, keys: seq<string>): (r: Option<seq<string>>)
    requires |lines| == |keys|
    ensures r.Some? ==> |r.value| == |keys|
  {
    if |keys| == 0 then Some([])
    else
      match ParseAssignment(lines[0], keys[0])
      case None => None
      case Some(v) =>
        match ParseValues(lines[1..], keys[1..])
        case None => None
        case Some(vs) => Some([v] + vs)
  }

  /** Reads a configuration file back: exactly nine terminated lines with
      the expected keys, each upper-case value agreeing with its lower-case one. */
  function ParseConfig(text: string): Option<Answers> {
    var lines := Split(text, '\n');
    if |lines| != |ConfigKeys| + 1 || lines[|ConfigKeys|] != "" then None
    else
      match ParseValues(lines[..|ConfigKeys|], ConfigKeys)
      case None => None
      case Some(v) =>
        if v[3] == v[0] && v[4] == v[1] && v[5] == v[2] then Some(Answers(v[0], v[1], v[2], v[6], v[7], v[8]))
        else None
  }

  /** No answer contains a line feed. */
  predicate NoLineBreaks(a: Answers) {
    forall i :: 0 <= i < |FieldValues(a)| ==> '\n' !in FieldValues(a)[i]
  }

  /** Terminated lines are the lines joined by line feeds, plus a final empty piece. */
  lemma {:induction false} TerminatedIsJoin(lines: seq<string>)
    ensures Terminated(lines) == Join(lines + [""], '\n')
    decreases |lines|
  {
    if |lines| > 0 {
      TerminatedIsJoin(lines[1..]);
      assert (lines + [""])[1..] == lines[1..] + [""];
    }
  }

  /** Parsing each line under its key succeeds when every line parses. */
  lemma {:induction false} ParseValuesAll(lines: seq<string>, keys: seq<string>, vals: seq<string>)
    requires |lines| == |keys| == |vals|
    requires forall i :: 0 <= i < |lines| ==> ParseAssignment(lines[i], keys[i]) == Some(vals[i])
    ensures ParseValues(lines, keys) == Some(vals)
    decreases |keys|
  {
    if |keys| > 0 {
      ParseValuesAll(lines[1..], keys[1..], vals[1..]);
      assert vals == [vals[0]] + vals[1..];
    }
  }

  /** A line contains a line feed exactly when its value does. */
  lemma AssignmentLineFeed(key: string, value: string)
    requires '\n' !in key
    ensures '\n' in Assignment(key, value) <==> '\n' in value
  {
    var line := Assignment(key, value);
    assert line == key + "=\"" + value + "\"";
  }

  /** No key contains a line feed. */
  lemma KeysHaveNoLineFeed(i: nat)
    requires i < |ConfigKeys|
    ensures '\n' !in ConfigKeys[i]
  {
  }

  /** A written line contains a line feed exactly when its answer does. */
  lemma LineFeedInLine(a: Answers, i: nat)
    requires i < |ConfigKeys|
    ensures '\n' in ConfigLines(a)[i] <==> '\n' in FieldValues(a)[i]
  {
    var lines := ConfigLines(a);
    assert lines[i] == Assignment(ConfigKeys[i], FieldValues(a)[i]);
    KeysHaveNoLineFeed(i);
    AssignmentLineFeed(ConfigKeys[i], FieldValues(a)[i]);
  }

  /** Without line feeds in the answers, the file splits into exactly the
      nine lines followed by an empty remainder. */
  lemma ConfigTextLines(a: Answers)
    requires NoLineBreaks(a)
    ensures Split(ConfigText(a), '\n') == ConfigLines(a) + [""]
  {
    var lines := ConfigLines(a);
    forall i | 0 <= i < |lines| ensures '\n' !in lines[i] {
      LineFeedInLine(a, i);
    }
    TerminatedIsJoin(lines);
    SplitJoin(lines + [""], '\n');
  }

  /** Round trip: reading back the written text gives back the answers,
      provided no answer contains a line feed. */
  lemma ConfigRoundTrip(a: Answers)
    requires NoLineBreaks(a)
    ensures ParseConfig(ConfigText(a)) == Some(a)
  {
    var lines := ConfigLines(a);
    ConfigTextLines(a);
    assert (lines + [""])[..|ConfigKeys|] == lines;
    ParseValuesAll(lines, ConfigKeys, FieldValues(a));
  }

  /** Terminated text has at least one line feed per line, and more when
      some line itself contains one. */
  lemma {:induction false} TerminatedLineFeeds(lines: seq<string>)
    ensures CountChar(Terminated(lines), '\n') >= |lines|
    ensures (exists i :: 0 <= i < |lines| && '\n' in lines[i]) ==> CountChar(Terminated(lines), '\n') > |lines|
    decreases |lines|
  {
    if |lines| > 0 {
      TerminatedLineFeeds(lines[1..]);
      CountCharConcat(lines[0] + "\n", Terminated(lines[1..]), '\n');
      CountCharConcat(lines[0], "\n", '\n');
      if '\n' in lines[0] {
        CountCharPositive(lines[0], '\n');
      }
      if exists i :: 0 <= i < |lines| && '\n' in lines[i] {
        var i :| 0 <= i < |lines| && '\n' in lines[i];
        if i > 0 {
          assert '\n' in lines[1..][i - 1];
        }
      }
    }
  }

  /** A line feed in any answer adds a line, and the text no longer reads back. */
  lemma LineBreakBreaksRoundTrip(a: Answers)
    requires !NoLineBreaks(a)
    ensures ParseConfig(ConfigText(a)) == None
  {
    var lines := ConfigLines(a);
    var text := ConfigText(a);
    var i :| 0 <= i < |FieldValues(a)| && '\n' in FieldValues(a)[i];
    LineFeedInLine(a, i);
    TerminatedLineFeeds(lines);
    SplitCount(text, '\n');
    assert |Split(text, '\n')| != |ConfigKeys| + 1;
  }

  /** The round trip holds exactly when no answer contains a line feed. */
  lemma ConfigRoundTripIff(a: Answers)
    ensures ParseConfig(ConfigText(a)) == Some(a) <==> NoLineBreaks(a)
  {
    if NoLineBreaks(a) {
      ConfigRoundTrip(a);
    } else {
      LineBreakBreaksRoundTrip(a);
    }
  }
}
