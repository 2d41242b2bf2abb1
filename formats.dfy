/** The output formats of the tag engine: the shell-environment formatter
    `FormatEnv`, written out in full, and the registry that names every
    formatter. The JSON, YAML, TOML, Telegraf and Consul formatters are
    single calls into serialization libraries and appear only as registry
    entries. */
module Formats {
  import opened Types
  import Strings

  // ---------------------------------------------------------------------
  // Key normalisation
  // ---------------------------------------------------------------------

  /** unicode.ToUpper restricted to what can survive normalisation: ASCII
      letters, plus the two non-ASCII letters whose upper case is ASCII
      (dotless i and long s). Every other character is returned as it is;
      its upper case, if any, is not ASCII and is replaced anyway. */
  function Upper(c: char): char
  {
    if 'a' <= c <= 'z' then (c as int - 32) as char
    else if c == 'ı' then 'I'
    else if c == 'ſ' then 'S'
    else c
  }

  /** A character the pattern `[^A-Z0-9_]` leaves alone. */
  predicate IsEnvChar(c: char)
  {
    'A' <= c <= 'Z' || '0' <= c <= '9' || c == '_'
  }

  predicate IsDigit(c: char)
  {
    '0' <= c <= '9'
  }

  /** One character of a key: upper-cased, then '_' unless it is in A-Z,
      0-9 or '_'. */
  function EnvChar(c: char): (e: char)
    ensures IsEnvChar(e)
    ensures IsEnvChar(c) ==> e == c
    ensures 'a' <= c <= 'z' ==> e == (c as int - 32) as char
    ensures c == 'ı' ==> e == 'I'
    ensures c == 'ſ' ==> e == 'S'
    ensures !IsEnvChar(c) && !('a' <= c <= 'z') && c != 'ı' && c != 'ſ' ==> e == '_'
  {
    var u := Upper(c);
    if IsEnvChar(u) then u else '_'
  }

  /** The normalised key: strings.ToUpper followed by replacing every
      character outside [A-Z0-9_] with '_', one character for one. */
  function EnvKey(key: string): (k: string)
    ensures |k| == |key|
    ensures forall i :: 0 <= i < |k| ==> IsEnvChar(k[i])
  {
    seq(|key|, i requires 0 <= i < |key| => EnvChar(key[i]))
  }

  /** Normalising a normalised key changes nothing. */
  lemma EnvKeyIdempotent(key: string)
    ensures EnvKey(EnvKey(key)) == EnvKey(key)
  {
    var k := EnvKey(key);
    assert forall i :: 0 <= i < |k| ==> EnvKey(k)[i] == k[i];
  }

  /** A tag FormatEnv keeps: a non-empty key whose normalised form does not
      start with a digit. */
  predicate Kept(key: string)
  {
    key != [] && !IsDigit(EnvKey(key)[0])
  }

  // ---------------------------------------------------------------------
  // Value escaping
  // ---------------------------------------------------------------------

  /** The replacement of a single quote inside a single-quoted shell word:
      close the quote, an escaped quote, reopen the quote. */
  const QuoteEscape: string := "'\\''"

  /** strings.Replace(value, "'", `'\''`, -1). */
  function Escape(v: string): string
  {
    Strings.ReplaceAll(v, '\'', QuoteEscape)
  }

  /** What the shell makes of an escaped value between single quotes: each
      `'\''` stands for one quote. */
  function Unescape(s: string): string
    decreases |s|
  {
    if s == [] then []
    else if |s| >= 4 && s[..4] == QuoteEscape then ['\''] + Unescape(s[4..])
    else [s[0]] + Unescape(s[1..])
  }

  /** Unescaping an escaped value gives back the value. */
  lemma {:induction false} UnescapeEscape(v: string)
    ensures Unescape(Escape(v)) == v
    decreases |v|
  {
    if v != [] {
      var rest := Escape(v[1..]);
      UnescapeEscape(v[1..]);
      if v[0] == '\'' {
        assert Escape(v) == QuoteEscape + rest;
        assert (QuoteEscape + rest)[..4] == QuoteEscape;
        assert (QuoteEscape + rest)[4..] == rest;
      } else {
        assert Escape(v) == [v[0]] + rest;
        assert ([v[0]] + rest)[1..] == rest;
      }
      assert v == [v[0]] + v[1..];
    }
  }

  /** A value without a single quote is left as it is. */
  lemma EscapeWithoutQuote(v: string)
    requires '\'' !in v
    ensures Escape(v) == v
  {
    Strings.ReplaceAllAbsent(v, '\'', QuoteEscape);
  }

  // ---------------------------------------------------------------------
  // Joining
  // ---------------------------------------------------------------------

  /** fmt.Sprintf("%s='%s'", key, value). */
  function Entry(key: string, value: string): string
  {
    key + "='" + value + "'"
  }

  /** What the second loop of FormatEnv builds: each entry followed by a
      space, in the order visited. */
  function Terminated(order: seq<string>, filtered: Tags): string
    requires forall i :: 0 <= i < |order| ==> order[i] in filtered
  {
    if order == [] then []
    else
      var last := order[|order| - 1];
      Terminated(order[..|order| - 1], filtered) + Entry(last, filtered[last]) + " "
  }

  /** The entries joined by single spaces. */
  function Joined(order: seq<string>, filtered: Tags): string
    requires forall i :: 0 <= i < |order| ==> order[i] in filtered
  {
    if order == [] then []
    else if |order| == 1 then Entry(order[0], filtered[order[0]])
    else
      var last := order[|order| - 1];
      Joined(order[..|order| - 1], filtered) + " " + Entry(last, filtered[last])
  }

  /** The space-terminated form is the joined form plus one space. */
  lemma {:induction false} TerminatedJoined(order: seq<string>, filtered: Tags)
    requires forall i :: 0 <= i < |order| ==> order[i] in filtered
    requires order != []
    ensures Terminated(order, filtered) == Joined(order, filtered) + " "
    decreases |order|
  {
    if |order| > 1 {
      TerminatedJoined(order[..|order| - 1], filtered);
    } else {
      assert order[..0] == [];
    }
  }

  /** The joined form starts with the first key and ends with a quote. */
  lemma {:induction false} JoinedEnds(order: seq<string>, filtered: Tags)
    requires forall i :: 0 <= i < |order| ==> order[i] in filtered
    requires order != [] && order[0] != []
    ensures |Joined(order, filtered)| > 0
    ensures Joined(order, filtered)[0] == order[0][0]
    ensures Joined(order, filtered)[|Joined(order, filtered)| - 1] == '\''
    decreases |order|
  {
    if |order| > 1 {
      var pre := order[..|order| - 1];
      JoinedEnds(pre, filtered);
    }
  }

  /** strings.Trim(result, " ") removes exactly the final separator when no
      key starts with a space. */
  lemma TrimTerminated(order: seq<string>, filtered: Tags)
    requires forall i :: 0 <= i < |order| ==> order[i] in filtered
    requires forall i :: 0 <= i < |order| ==> order[i] != [] && order[i][0] != ' '
    ensures Strings.Trim(Terminated(order, filtered), ' ') == Joined(order, filtered)
  {
    if order != [] {
      TerminatedJoined(order, filtered);
      JoinedEnds(order, filtered);
      var j := Joined(order, filtered);
      var t := j + " ";
      assert Strings.TrimLeft(t, ' ') == t;
      assert t[..|t| - 1] == j;
      assert Strings.TrimRight(t, ' ') == Strings.TrimRight(j, ' ');
    }
  }

  /** The output has no space at either end, and is empty only when no tag
      was kept. */
  lemma JoinedShape(order: seq<string>, filtered: Tags)
    requires forall i :: 0 <= i < |order| ==> order[i] in filtered
    requires forall i :: 0 <= i < |order| ==> order[i] != [] && order[i][0] != ' '
    ensures var s := Joined(order, filtered);
            (s == [] <==> order == []) && (s != [] ==> s[0] != ' ' && s[|s| - 1] != ' ')
  {
    if order != [] {
      JoinedEnds(order, filtered);
    }
  }

  /** Worked cases: a dotted mixed-case key, keys that are dropped, and a
      value with a quote. */
  lemma EnvExamples()
    ensures EnvKey("My.Key") == "MY_KEY"
    ensures EnvKey("ıd-ſet") == "ID_SET"
    ensures !Kept("") && !Kept("1abc") && Kept("_1")
    ensures Escape("it's") == "it'\\''s"
    ensures Entry(EnvKey("a"), Escape("x")) == "A='x'"
  {
    assert EnvKey("My.Key") == "MY_KEY";
    assert EnvKey("ıd-ſet") == "ID_SET";
    assert EnvKey("1abc")[0] == '1';
    assert EnvKey("_1")[0] == '_';
    assert EnvKey("a") == "A";
    assert Escape("x") == Strings.ReplaceAll("x", '\'', QuoteEscape);
  }

  // ---------------------------------------------------------------------
  // FormatEnv
  // ---------------------------------------------------------------------

  /** `filtered` is what the first loop of FormatEnv makes of the tags in
      `seen`: a kept tag appears under its normalised key, and every entry
      is the escaped value of some kept tag with that normalised key (of
      several that collide, whichever came last). */
  ghost predicate Filtered(tags: Tags, seen: set<string>, filtered: Tags)
  {
    && (forall key :: key in seen && key in tags && Kept(key) ==> EnvKey(key) in filtered)
    && (forall k :: k in filtered ==> exists key :: Sourced(tags, seen, filtered, k, key))
  }

  /** The entry under `k` comes from the tag `key`. */
  ghost predicate Sourced(tags: Tags, seen: set<string>, filtered: Tags, k: string, key: string)
  {
    key in seen && key in tags && Kept(key) && EnvKey(key) == k && k in filtered && filtered[k] == Escape(tags[key])
  }

  /** What the first loop of FormatEnv does with one tag. */
  function FilterOne(tags: Tags, kept: Tags, key: string): Tags
    requires key in tags
  {
    if Kept(key) then kept[EnvKey(key) := Escape(tags[key])] else kept
  }

  /** One more tag through the first loop keeps its invariant. */
  lemma FilterOneStep(tags: Tags, seen: set<string>, kept: Tags, key: string)
    requires Filtered(tags, seen, kept)
    requires key in tags
    ensures Filtered(tags, seen + {key}, FilterOne(tags, kept, key))
  {
    var kept' := FilterOne(tags, kept, key);
    forall k | k in kept'
      ensures exists key' :: Sourced(tags, seen + {key}, kept', k, key')
    {
      if Kept(key) && k == EnvKey(key) {
        assert Sourced(tags, seen + {key}, kept', k, key);
      } else {
        var key' :| Sourced(tags, seen, kept, k, key');
        assert Sourced(tags, seen + {key}, kept', k, key');
      }
    }
  }

  /** A set of normalised keys, each the normal form of some key in `keys`,
      is no larger than `keys`: colliding keys give one entry. */
  lemma {:induction false} FewerNormalised(keys: set<string>, normalised: set<string>)
    requires forall k :: k in normalised ==> exists key :: key in keys && EnvKey(key) == k
    ensures |normalised| <= |keys|
    decreases |keys|
  {
    if keys != {} {
      var x :| x in keys;
      var rest := normalised - {EnvKey(x)};
      forall k | k in rest
        ensures exists key :: key in keys - {x} && EnvKey(key) == k
      {
        var key :| key in keys && EnvKey(key) == k;
      }
      FewerNormalised(keys - {x}, rest);
    } else {
      assert normalised == {};
    }
  }

  /** Every key the first loop stores is a valid variable name. */
  lemma FilteredKeys(tags: Tags, seen: set<string>, kept: Tags)
    requires Filtered(tags, seen, kept)
    ensures forall k :: k in kept ==> k != [] && IsEnvChar(k[0]) && !IsDigit(k[0])
  {
    forall k | k in kept
      ensures k != [] && IsEnvChar(k[0]) && !IsDigit(k[0])
    {
      var key :| Sourced(tags, seen, kept, k, key);
    }
  }

  /** The first loop of FormatEnv: normalise the keys, drop the empty ones
      and those that would start with a digit, and escape the values. */
  method FilterTags(tags: Tags) returns (kept: Tags)
    ensures Filtered(tags, tags.Keys, kept)
    ensures |kept| <= |tags|
  {
    kept := map[];
    var todo := tags.Keys;
    ghost var seen: set<string> := {};
    while todo != {}
      invariant todo <= tags.Keys && seen == tags.Keys - todo
      invariant Filtered(tags, seen, kept)
      decreases |todo|
    {
      var key :| key in todo;
      FilterOneStep(tags, seen, kept, key);
      ghost var next := FilterOne(tags, kept, key);
      if key != "" {
        var k := EnvKey(key);
        if !('0' <= k[0] <= '9') {
          var v := Strings.ReplaceAll(tags[key], '\'', QuoteEscape);
          kept := kept[k := v];
        }
      }
      assert kept == next;
      todo := todo - {key};
      seen := seen + {key};
    }
    assert seen == tags.Keys;
    forall k | k in kept
      ensures exists key :: key in tags.Keys && EnvKey(key) == k
    {
      var key :| Sourced(tags, seen, kept, k, key);
    }
    FewerNormalised(tags.Keys, kept.Keys);
  }

  /** The second loop of FormatEnv: append each entry and a space, visiting
      the keys in `order`, each once. */
  method Concatenate(kept: Tags) returns (result: string, ghost order: seq<string>)
    ensures forall i :: 0 <= i < |order| ==> order[i] in kept
    ensures forall k :: k in kept ==> k in order
    ensures forall i, j :: 0 <= i < j < |order| ==> order[i] != order[j]
    ensures result == Terminated(order, kept)
    ensures result == [] <==> kept == map[]
  {
    result := "";
    var rest := kept.Keys;
    order := [];
    while rest != {}
      invariant rest <= kept.Keys
      invariant forall i :: 0 <= i < |order| ==> order[i] in kept && order[i] !in rest
      invariant forall k :: k in kept ==> k in order || k in rest
      invariant forall i, j :: 0 <= i < j < |order| ==> order[i] != order[j]
      invariant result == Terminated(order, kept)
      decreases |rest|
    {
      var key :| key in rest;
      result := result + Entry(key, kept[key]) + " ";
      order := order + [key];
      rest := rest - {key};
    }
  }

  /** FormatEnv: render the tags as shell assignments KEY='value' separated
      by single spaces. The map `filtered` and the visiting `order` of the
      second loop are returned for the contract; the error is always nil. */
  method FormatEnv(tags: Tags) returns (r: Result<string>, ghost filtered: Tags, ghost order: seq<string>)
    ensures Filtered(tags, tags.Keys, filtered)
    ensures |filtered| <= |tags|
    ensures forall i :: 0 <= i < |order| ==> order[i] in filtered
    ensures forall k :: k in filtered ==> k in order
    ensures forall i, j :: 0 <= i < j < |order| ==> order[i] != order[j]
    ensures r == Ok(Joined(order, filtered))
    ensures r.Ok? && (r.value == [] <==> forall key :: key in tags ==> !Kept(key))
    ensures r.Ok? && r.value != [] ==> r.value[0] != ' ' && r.value[|r.value| - 1] == '\''
  {
    var kept := FilterTags(tags);
    FilteredKeys(tags, tags.Keys, kept);
    var result;
    result, order := Concatenate(kept);
    filtered := kept;
    TrimTerminated(order, filtered);
    r := Ok(Strings.Trim(result, ' '));
    NoneKept(tags, filtered);
    if order != [] {
      JoinedEnds(order, filtered);
      assert order[0] in filtered;
    }
  }

  /** Nothing is kept exactly when no tag passes the filter. */
  lemma NoneKept(tags: Tags, filtered: Tags)
    requires Filtered(tags, tags.Keys, filtered)
    ensures filtered == map[] <==> forall key :: key in tags ==> !Kept(key)
  {
    if filtered != map[] {
      var k :| k in filtered;
      var key :| Sourced(tags, tags.Keys, filtered, k, key);
    }
  }

  // ---------------------------------------------------------------------
  // The registry
  // ---------------------------------------------------------------------

  /** The formatters: each names one of the Format* functions. */
  datatype Format = Json | Yaml | Toml | Env | Telegraf | Consul

  /** The registry of formatters by the name a user asks for. */
  const Registry: map<string, Format> := map[
    "json" := Json,
    "yaml" := Yaml,
    "yml" := Yaml,
    "toml" := Toml,
    "env" := Env,
    "telegraf" := Telegraf,
    "consul" := Consul
  ]

  /** The registry offers exactly these seven names; "yaml" and "yml" are
      the same formatter, and there is no "systemd" or "cmd" format. */
  lemma RegistryNames()
    ensures Registry.Keys == {"json", "yaml", "yml", "toml", "env", "telegraf", "consul"}
    ensures Registry["yaml"] == Registry["yml"] == Yaml
    ensures Registry["env"] == Env
    ensures "systemd" !in Registry && "cmd" !in Registry
  {
  }
}
