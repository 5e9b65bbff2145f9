/** Passing an ordered list of git settings through numbered environment variables. */
module GitConfigEnv {
  import opened Options
  import opened Text

  type Setting = (string, string)
  type Env = map<string, string>

  // ----- The encoding

  const COUNT_NAME := "GIT_CONFIG_COUNT"

  function KeyName(i: nat): string {
    "GIT_CONFIG_KEY_" + Decimal(i)
  }

  function ValueName(i: nat): string {
    "GIT_CONFIG_VALUE_" + Decimal(i)
  }

  /** `entries.flatMap`: two pairs per setting, numbered from zero. */
  function NumberedPairs(entries: seq<Setting>): seq<Setting> {
    if entries == [] then []
    else
      var last := |entries| - 1;
      NumberedPairs(entries[..last]) + [(KeyName(last), entries[last].0), (ValueName(last), entries[last].1)]
  }

  /** `Object.fromEntries`: a later pair overrides an earlier one of the same name. */
  function FromEntries(pairs: seq<Setting>): Env {
    if pairs == [] then map[]
    else FromEntries(pairs[..|pairs| - 1])[pairs[|pairs| - 1].0 := pairs[|pairs| - 1].1]
  }

  function GitConfigEnv(entries: seq<Setting>): Env {
    FromEntries([(COUNT_NAME, Decimal(|entries|))] + NumberedPairs(entries))
  }

  // ----- What git reads back

  function ReadSettings(env: Env, n: nat): Option<seq<Setting>> {
    if n == 0 then Some([])
    else if KeyName(n - 1) !in env || ValueName(n - 1) !in env then None
    else match ReadSettings(env, n - 1)
      case None => None
      case Some(front) => Some(front + [(env[KeyName(n - 1)], env[ValueName(n - 1)])])
  }

  function Decode(env: Env): Option<seq<Setting>> {
    if COUNT_NAME !in env then None
    else match ParseDecimal(env[COUNT_NAME])
      case None => None
      case Some(n) => ReadSettings(env, n)
  }

  /** No two of the variable names coincide. */
  lemma NamesAreDistinct(i: nat, j: nat)
    ensures KeyName(i) == KeyName(j) ==> i == j
    ensures ValueName(i) == ValueName(j) ==> i == j
    ensures KeyName(i) != ValueName(j) && KeyName(i) != COUNT_NAME && ValueName(i) != COUNT_NAME
  {
    DecimalRoundTrip(i);
    DecimalRoundTrip(j);
    assert KeyName(i)[15..] == Decimal(i) && KeyName(j)[15..] == Decimal(j);
    assert ValueName(i)[17..] == Decimal(i) && ValueName(j)[17..] == Decimal(j);
    assert KeyName(i)[11] == 'K' && ValueName(j)[11] == 'V' && COUNT_NAME[11] == 'C' && ValueName(i)[11] == 'V';
  }

  lemma TwoMore(pairs: seq<Setting>, p: Setting, q: Setting)
    ensures FromEntries(pairs + [p, q]) == FromEntries(pairs)[p.0 := p.1][q.0 := q.1]
  {
    var longer := pairs + [p, q];
    assert longer[..|longer| - 1] == pairs + [p];
    assert (pairs + [p])[..|pairs|] == pairs;
  }

  lemma PairsStep(front: seq<Setting>, last: Setting)
    ensures NumberedPairs(front + [last])
        == NumberedPairs(front) + [(KeyName(|front|), last.0), (ValueName(|front|), last.1)]
  {
  }

  /** Adding a setting defines its two variables and leaves all others alone. */
  lemma EnvStep(front: seq<Setting>, last: Setting, base: seq<Setting>)
    ensures FromEntries(base + NumberedPairs(front + [last])) ==
            FromEntries(base + NumberedPairs(front))[KeyName(|front|) := last.0][ValueName(|front|) := last.1]
  {
    var p, q := (KeyName(|front|), last.0), (ValueName(|front|), last.1);
    var pairs := NumberedPairs(front);
    PairsStep(front, last);
    TwoMore(base + pairs, p, q);
    assert base + pairs + [p, q] == base + (pairs + [p, q]);
  }

  lemma {:induction false} EveryVariable(entries: seq<Setting>, count: string, i: nat)
    ensures var env := FromEntries([(COUNT_NAME, count)] + NumberedPairs(entries));
            && COUNT_NAME in env && env[COUNT_NAME] == count
            && (i < |entries| ==> KeyName(i) in env && ValueName(i) in env
                                  && env[KeyName(i)] == entries[i].0 && env[ValueName(i)] == entries[i].1)
  {
    if entries == [] {
      assert [(COUNT_NAME, count)] + NumberedPairs(entries) == [(COUNT_NAME, count)];
      assert FromEntries([(COUNT_NAME, count)]) == FromEntries([(COUNT_NAME, count)][..0])[COUNT_NAME := count];
    } else {
      var last := |entries| - 1;
      EveryVariable(entries[..last], count, i);
      assert entries == entries[..last] + [entries[last]];
      EnvStep(entries[..last], entries[last], [(COUNT_NAME, count)]);
      NamesAreDistinct(i, last);
      NamesAreDistinct(last, i);
    }
  }

  lemma {:induction false} ReadBack(env: Env, entries: seq<Setting>, n: nat)
    requires n <= |entries|
    requires forall i :: 0 <= i < n ==> KeyName(i) in env && ValueName(i) in env
                                        && env[KeyName(i)] == entries[i].0 && env[ValueName(i)] == entries[i].1
    ensures ReadSettings(env, n) == Some(entries[..n])
  {
    if n > 0 {
      ReadBack(env, entries, n - 1);
      assert entries[..n] == entries[..n - 1] + [entries[n - 1]];
    }
  }

  lemma {:induction false} NoOtherVariable(entries: seq<Setting>, count: string, name: string)
    requires name in FromEntries([(COUNT_NAME, count)] + NumberedPairs(entries))
    ensures name == COUNT_NAME || exists i: nat :: i < |entries| && (name == KeyName(i) || name == ValueName(i))
  {
    if entries == [] {
      assert [(COUNT_NAME, count)] + NumberedPairs(entries) == [(COUNT_NAME, count)];
      assert FromEntries([(COUNT_NAME, count)]) == FromEntries([(COUNT_NAME, count)][..0])[COUNT_NAME := count];
    } else {
      var last := |entries| - 1;
      assert entries == entries[..last] + [entries[last]];
      EnvStep(entries[..last], entries[last], [(COUNT_NAME, count)]);
      if name != KeyName(last) && name != ValueName(last) {
        NoOtherVariable(entries[..last], count, name);
      }
    }
  }

  /** The variables under the names that git documents. */
  lemma VariableSpelled(entries: seq<Setting>, i: nat)
    requires i < |entries|
    ensures var env := GitConfigEnv(entries);
            var key, value := "GIT_CONFIG_KEY_" + Decimal(i), "GIT_CONFIG_VALUE_" + Decimal(i);
            && "GIT_CONFIG_COUNT" in env && env["GIT_CONFIG_COUNT"] == Decimal(|entries|)
            && key in env && env[key] == entries[i].0 && value in env && env[value] == entries[i].1
  {
    EveryVariable(entries, Decimal(|entries|), i);
  }

  /** And no others. */
  lemma NoOtherName(entries: seq<Setting>, name: string)
    requires name in GitConfigEnv(entries) && name != "GIT_CONFIG_COUNT"
    ensures exists i: nat :: i < |entries|
              && (name == "GIT_CONFIG_KEY_" + Decimal(i) || name == "GIT_CONFIG_VALUE_" + Decimal(i))
  {
    NoOtherVariable(entries, Decimal(|entries|), name);
    var i: nat :| i < |entries| && (name == KeyName(i) || name == ValueName(i));
    assert KeyName(i) == "GIT_CONFIG_KEY_" + Decimal(i) && ValueName(i) == "GIT_CONFIG_VALUE_" + Decimal(i);
  }

  /** Any ordered list of settings, repeated keys included, comes back unchanged. */
  lemma RoundTrip(entries: seq<Setting>)
    ensures Decode(GitConfigEnv(entries)) == Some(entries)
  {
    var env := GitConfigEnv(entries);
    forall i: nat | i < |entries|
      ensures KeyName(i) in env && ValueName(i) in env
              && env[KeyName(i)] == entries[i].0 && env[ValueName(i)] == entries[i].1
    {
      EveryVariable(entries, Decimal(|entries|), i);
    }
    EveryVariable(entries, Decimal(|entries|), 0);
    DecimalRoundTrip(|entries|);
    ReadBack(env, entries, |entries|);
    assert entries[..|entries|] == entries;
  }

  function RewriteRules(proxyUrl: string, token: string): seq<Setting> {
    [("url." + proxyUrl + "/github.com/.insteadOf", "https://github.com/"),
     ("url." + proxyUrl + "/github.com/.insteadOf", "git@github.com:"),
     ("url." + proxyUrl + "/github.com/.insteadOf", "ssh://git@github.com/"),
     ("http." + proxyUrl + "/.extraHeader", "X-Telclaude-Session: " + token)]
  }

  /** The settings in the order in which git applies them. */
  function SettingsFor(proxyUrl: string, token: string, plainHttp: bool): (settings: seq<Setting>)
    ensures |settings| == if plainHttp then 6 else 5
    ensures settings[0] == ("url." + proxyUrl + "/github.com/.insteadOf", "https://github.com/")
    ensures settings[1] == ("url." + proxyUrl + "/github.com/.insteadOf", "git@github.com:")
    ensures settings[2] == ("url." + proxyUrl + "/github.com/.insteadOf", "ssh://git@github.com/")
    ensures settings[3] == ("http." + proxyUrl + "/.extraHeader", "X-Telclaude-Session: " + token)
    ensures plainHttp ==> settings[4] == ("http." + proxyUrl + "/.sslVerify", "false")
    ensures settings[|settings| - 1] == ("credential.helper", "")
  {
    RewriteRules(proxyUrl, token)
    + (if plainHttp then [("http." + proxyUrl + "/.sslVerify", "false")] else [])
    + [("credential.helper", "")]
  }

  /**
   * The settings of the git proxy: git reads back one URL rewritten three ways under one key, and TLS
   * checks switched off for plain http only, before the credential helper.
   */
  method BuildGitProxyEnv(proxyUrl: string, token: string, plainHttp: bool) returns (env: Env)
    ensures env == GitConfigEnv(SettingsFor(proxyUrl, token, plainHttp))
    ensures Decode(env) == Some(SettingsFor(proxyUrl, token, plainHttp))
  {
    var configEntries := RewriteRules(proxyUrl, token) + [("credential.helper", "")];
    if plainHttp {
      configEntries := configEntries[..4] + [("http." + proxyUrl + "/.sslVerify", "false")] + configEntries[4..];
    }
    assert !plainHttp ==> configEntries == RewriteRules(proxyUrl, token) + [] + [("credential.helper", "")];
    RoundTrip(configEntries);
    env := GitConfigEnv(configEntries);
  }
}
