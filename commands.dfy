/** Reading a chat message as a bot command (autbot.go:446-588): the
    space-separated words that select the branch, and the
    `<person> <corporation> <alliance> <system>` filter syntax. */
module Commands {
  import opened Common
  import opened Text
  import opened Channels

  /** The branch of the message handler a message selects. */
  datatype Command =
    | NotACommand            // shorter than 2, no leading '!', or not "kmpost"
    | MissingArgument        // "!kmpost" with no second word
    | Init | Enable | Disable
    | MissingFilterArgument  // "!kmpost filter" with no third word
    | FilterList | FilterAdd
    | FilterRem(indexArg: Option<string>)  // the fourth word, if any
    | FilterOther            // "filter" followed by an unknown word
    | Status | Commit | Help
    | UnknownArgument

  const CommandName: string := "kmpost"

  function ParseCommand(content: string): (c: Command)
    ensures |content| < 2 || content[0] != '!' ==> c == NotACommand
  {
    if |content| < 2 || content[..1] != "!" then NotACommand
    else CommandOf(Split(content, ' '))
  }

  /** The branch the space-separated words select (autbot.go:450-619). */
  function CommandOf(splits: seq<string>): (c: Command)
    requires |splits| >= 1 && |splits[0]| >= 1
    ensures splits[0][1..] != CommandName ==> c == NotACommand
    ensures c.FilterRem? ==> |splits| >= 3 && splits[1] == "filter" && splits[2] == "rem"
    ensures c.FilterRem? ==> (c.indexArg.Some? <==> |splits| >= 4)
    ensures c.FilterRem? && c.indexArg.Some? ==> c.indexArg.value == splits[3]
  {
    if splits[0][1..] != CommandName then NotACommand
    else if |splits| < 2 then MissingArgument
    else
      var arg := splits[1];
      if arg == "init" then Init
      else if arg == "enable" then Enable
      else if arg == "disable" then Disable
      else if arg == "filter" then
        if |splits| < 3 then MissingFilterArgument
        else
          var filterArg := splits[2];
          if filterArg == "list" then FilterList
          else if filterArg == "add" then FilterAdd
          else if filterArg == "rem" then FilterRem(if |splits| < 4 then None else Some(splits[3]))
          else FilterOther
      else if arg == "status" then Status
      else if arg == "commit" then Commit
      else if arg == "help" then Help
      else UnknownArgument
  }

  /** "!kmpost w1 w2 ..." is read as the words "!kmpost", w1, w2, ... */
  lemma KmpostWords(head: string, words: seq<string>)
    requires |head| >= 1 && head[0] == '!' && ' ' !in head
    requires |words| >= 1
    requires forall i :: 0 <= i < |words| ==> ' ' !in words[i]
    ensures ParseCommand(head + " " + Join(words, ' ')) == CommandOf([head] + words)
  {
    var all := [head] + words;
    var content := head + " " + Join(words, ' ');
    assert all[1..] == words;
    assert Join(all, ' ') == content;
    SplitJoin(all, ' ');
    assert content[..1] == "!";
  }

  /** "!kmpost" and one more word: the branches the help text lists
      (autbot.go:609-616), and nothing for a word it does not know. */
  lemma OneWord(w: string)
    requires ' ' !in w
    ensures w == "init" ==> ParseCommand("!kmpost " + w) == Init
    ensures w == "enable" ==> ParseCommand("!kmpost " + w) == Enable
    ensures w == "disable" ==> ParseCommand("!kmpost " + w) == Disable
    ensures w == "filter" ==> ParseCommand("!kmpost " + w) == MissingFilterArgument
    ensures w == "status" ==> ParseCommand("!kmpost " + w) == Status
    ensures w == "commit" ==> ParseCommand("!kmpost " + w) == Commit
    ensures w == "help" ==> ParseCommand("!kmpost " + w) == Help
    ensures w !in {"init", "enable", "disable", "filter", "status", "commit", "help"} ==>
              ParseCommand("!kmpost " + w) == UnknownArgument
  {
    assert "!kmpost " + w == "!kmpost" + " " + Join([w], ' ');
    KmpostWords("!kmpost", [w]);
  }

  /** "!kmpost filter rem <index>" hands the index word on. */
  lemma ParseFilterRem(index: string)
    requires ' ' !in index
    ensures ParseCommand("!kmpost filter rem " + index) == FilterRem(Some(index))
  {
    ThreeWords("!kmpost", "filter", "rem", index);
    assert "!kmpost filter rem " + index == "!kmpost" + " " + "filter" + " " + "rem" + " " + index;
    SplitPieces(index, ' ');
    assert ["!kmpost", "filter", "rem"] + Split(index, ' ') == ["!kmpost", "filter", "rem", index];
    assert "!kmpost"[1..] == CommandName;
  }

  /** "!kmpost filter add" followed by a space and anything is the add branch. */
  lemma ParseFilterAddCommand(rest: string)
    ensures ParseCommand("!kmpost filter add " + rest) == FilterAdd
  {
    ThreeWords("!kmpost", "filter", "add", rest);
    assert "!kmpost filter add " + rest == "!kmpost" + " " + "filter" + " " + "add" + " " + rest;
    assert "!kmpost"[1..] == CommandName;
  }

  /** Three words without spaces, the first starting with '!', then the
      words of the rest. */
  lemma ThreeWords(h: string, f: string, w: string, rest: string)
    requires |h| >= 1 && h[0] == '!' && ' ' !in h && ' ' !in f && ' ' !in w
    ensures ParseCommand(h + " " + f + " " + w + " " + rest) == CommandOf([h, f, w] + Split(rest, ' '))
  {
    var content := h + " " + f + " " + w + " " + rest;
    SplitThree(h, f, w, rest);
    assert content[..1] == [h[0]];
  }

  lemma SplitThree(h: string, f: string, w: string, rest: string)
    requires ' ' !in h && ' ' !in f && ' ' !in w
    ensures Split(h + " " + f + " " + w + " " + rest, ' ') == [h, f, w] + Split(rest, ' ')
  {
    calc {
      Split(h + " " + f + " " + w + " " + rest, ' ');
      { assert h + " " + f + " " + w + " " + rest == h + [' '] + (f + [' '] + (w + [' '] + rest)); }
      Split(h + [' '] + (f + [' '] + (w + [' '] + rest)), ' ');
      { SplitAfterPiece(h, ' ', f + [' '] + (w + [' '] + rest)); }
      [h] + Split(f + [' '] + (w + [' '] + rest), ' ');
      { SplitAfterPiece(f, ' ', w + [' '] + rest); }
      [h] + ([f] + Split(w + [' '] + rest, ' '));
      { SplitAfterPiece(w, ' ', rest); }
      [h] + ([f] + ([w] + Split(rest, ' ')));
      [h, f, w] + Split(rest, ' ');
    }
  }

  // ---------------------------------------------------------------------
  // The filter syntax (autbot.go:533-558)

  /** Why "filter add" creates nothing. MissingBracket is a parameter
      without '<', where the Go code indexes past the end of its split. */
  datatype AddError = FilterFormat | MissingBracket | ParameterTooShort(name: string)

  const Categories: seq<string> := ["character", "corporation", "alliance", "solarsystem"]

  /** The identifier stored for a typed name: the wildcard stays "-",
      anything else is looked up with its spaces escaped (the lookup
      itself answers "-" when it finds nothing). */
  function Resolve(category: string, name: string, lookup: (string, string) -> string): string
  {
    if name == Wildcard then Wildcard else lookup(category, EscapeSpaces(name))
  }

  /** One `>`-piece: the text after its first '<' is the name. */
  function ParseField(param: string, category: string, lookup: (string, string) -> string)
    : (r: Result<(string, string), AddError>)
    ensures r.Ok? ==> r.value.1 == Resolve(category, r.value.0, lookup)
    ensures r.Ok? ==> r.value.0 == Wildcard || Utf8Length(r.value.0) >= 3
    ensures r.Ok? ==> '<' !in r.value.0
    ensures r == Err(MissingBracket) <==> '<' !in param
    ensures r.Err? && r.error.ParameterTooShort? ==> r.error.name != Wildcard && Utf8Length(r.error.name) < 3
  {
    var part := Split(param, '<');
    SplitPieces(param, '<');
    if |part| < 2 then Err(MissingBracket)
    else
      var name := part[1];
      if name != Wildcard && Utf8Length(name) < 3 then Err(ParameterTooShort(name))
      else Ok((name, Resolve(category, name, lookup)))
  }

  /** The first n fields, in order, or the error of the first that fails. */
  function ParseFields(params: seq<string>, lookup: (string, string) -> string, n: nat)
    : (r: Result<seq<(string, string)>, AddError>)
    requires n <= 4 <= |params|
    ensures r.Ok? ==> |r.value| == n
    ensures r.Ok? ==> forall i :: 0 <= i < n ==> ParseField(params[i], Categories[i], lookup) == Ok(r.value[i])
    ensures r.Err? ==>
      exists i :: 0 <= i < n && ParseField(params[i], Categories[i], lookup) == Err(r.error)
                  && forall j :: 0 <= j < i ==> ParseField(params[j], Categories[j], lookup).Ok?
  {
    if n == 0 then Ok([])
    else
      match ParseFields(params, lookup, n - 1)
      case Err(e) => Err(e)
      case Ok(fs) =>
        match ParseField(params[n - 1], Categories[n - 1], lookup)
        case Err(e) =>
          assert forall j :: 0 <= j < n - 1 ==> ParseField(params[j], Categories[j], lookup).Ok?;
          Err(e)
        case Ok(f) => Ok(fs + [f])
  }

  /** One more field that parses extends the list by its result. */
  lemma FieldsStep(params: seq<string>, lookup: (string, string) -> string, i: nat,
                   fs: seq<(string, string)>, f: (string, string))
    requires i < 4 <= |params|
    requires ParseFields(params, lookup, i) == Ok(fs)
    requires ParseField(params[i], Categories[i], lookup) == Ok(f)
    ensures ParseFields(params, lookup, i + 1) == Ok(fs + [f])
  {
  }

  /** Once field i fails, every longer prefix fails with its error. */
  lemma {:induction false} FieldsFailAt(params: seq<string>, lookup: (string, string) -> string, i: nat, n: nat)
    requires i < n <= 4 <= |params|
    requires ParseFields(params, lookup, i).Ok?
    requires ParseField(params[i], Categories[i], lookup).Err?
    ensures ParseFields(params, lookup, n) == Err(ParseField(params[i], Categories[i], lookup).error)
    decreases n
  {
    if n > i + 1 {
      FieldsFailAt(params, lookup, i, n - 1);
    }
  }

  function Names(rule: FilterRule): seq<string>
  {
    [rule.person, rule.corp, rule.alliance, rule.system]
  }

  function Ids(rule: FilterRule): seq<string>
  {
    [rule.personId, rule.corpId, rule.allianceId, rule.systemId]
  }

  /** The rule "filter add" builds from the whole message text. */
  function ParseFilterRule(content: string, lookup: (string, string) -> string): (r: Result<FilterRule, AddError>)
    ensures |Split(content, '>')| < 5 ==> r == Err(FilterFormat)
    ensures r.Ok? ==> forall i :: 0 <= i < 4 ==>
      (Names(r.value)[i] == Wildcard || Utf8Length(Names(r.value)[i]) >= 3) &&
      Ids(r.value)[i] == Resolve(Categories[i], Names(r.value)[i], lookup)
    ensures r.Err? && r.error.ParameterTooShort? ==> r.error.name != Wildcard && Utf8Length(r.error.name) < 3
  {
    var params := Split(content, '>');
    if |params| - 1 < 4 then Err(FilterFormat)
    else
      match ParseFields(params, lookup, 4)
      case Err(e) => Err(e)
      case Ok(fs) =>
        Ok(FilterRule(fs[0].0, fs[1].0, fs[2].0, fs[3].0, fs[0].1, fs[1].1, fs[2].1, fs[3].1))
  }

  /** The loop over the four parameters (autbot.go:533-558), which stops
      at the first parameter that fails. */
  method ReadFilterRule(content: string, lookup: (string, string) -> string)
    returns (r: Result<FilterRule, AddError>)
    ensures r == ParseFilterRule(content, lookup)
  {
    var params := Split(content, '>');
    if |params| - 1 < 4 {
      return Err(FilterFormat);
    }
    var ruleSet: seq<string> := [];
    var ruleIds: seq<string> := [];
    ghost var fs: seq<(string, string)> := [];
    for i := 0 to 4
      invariant |ruleSet| == i && |ruleIds| == i && |fs| == i
      invariant ParseFields(params, lookup, i) == Ok(fs)
      invariant forall k :: 0 <= k < i ==> fs[k] == (ruleSet[k], ruleIds[k])
    {
      var part := Split(params[i], '<');
      if |part| < 2 {
        FieldsFailAt(params, lookup, i, 4);
        return Err(MissingBracket);
      }
      var name := part[1];
      if name != Wildcard && Utf8Length(name) < 3 {
        FieldsFailAt(params, lookup, i, 4);
        return Err(ParameterTooShort(name));
      }
      var id;
      if name != Wildcard {
        id := lookup(Categories[i], EscapeSpaces(name));
      } else {
        id := Wildcard;
      }
      FieldsStep(params, lookup, i, fs, (name, id));
      fs := fs + [(name, id)];
      ruleSet := ruleSet + [name];
      ruleIds := ruleIds + [id];
    }
    r := Ok(FilterRule(ruleSet[0], ruleSet[1], ruleSet[2], ruleSet[3],
                       ruleIds[0], ruleIds[1], ruleIds[2], ruleIds[3]));
  }

  /** How the list command renders a rule (autbot.go:521-522), which is
      also the syntax "filter add" expects. */
  function FilterSpec(rule: FilterRule): string
  {
    "<" + rule.person + ">" + " <" + rule.corp + ">" + " <" + rule.alliance + ">" + " <" + rule.system + ">"
  }

  predicate Acceptable(name: string)
  {
    '<' !in name && '>' !in name && (name == Wildcard || Utf8Length(name) >= 3)
  }

  /** Four pieces without '>', each closed by '>', come first in the split. */
  lemma SplitFourClosed(p0: string, p1: string, p2: string, p3: string, post: string)
    requires '>' !in p0 && '>' !in p1 && '>' !in p2 && '>' !in p3
    ensures var params := Split(p0 + ">" + p1 + ">" + p2 + ">" + p3 + ">" + post, '>');
      |params| >= 5 && params[0] == p0 && params[1] == p1 && params[2] == p2 && params[3] == p3
  {
    var t3 := p3 + ['>'] + post;
    var t2 := p2 + ['>'] + t3;
    var t1 := p1 + ['>'] + t2;
    calc {
      Split(p0 + ">" + p1 + ">" + p2 + ">" + p3 + ">" + post, '>');
      { assert p0 + ">" + p1 + ">" + p2 + ">" + p3 + ">" + post == p0 + ['>'] + t1; }
      Split(p0 + ['>'] + t1, '>');
      { SplitAfterPiece(p0, '>', t1); }
      [p0] + Split(t1, '>');
      { SplitAfterPiece(p1, '>', t2); }
      [p0] + ([p1] + Split(t2, '>'));
      { SplitAfterPiece(p2, '>', t3); }
      [p0] + ([p1] + ([p2] + Split(t3, '>')));
      { SplitAfterPiece(p3, '>', post); }
      [p0] + ([p1] + ([p2] + ([p3] + Split(post, '>'))));
      [p0, p1, p2, p3] + Split(post, '>');
    }
  }

  /** What a name typed after '<' gives: a name other than "-" shorter
      than three bytes is refused, any other is kept and resolved. */
  function TypedField(category: string, name: string, lookup: (string, string) -> string)
    : Result<(string, string), AddError>
  {
    if name != Wildcard && Utf8Length(name) < 3 then Err(ParameterTooShort(name))
    else Ok((name, Resolve(category, name, lookup)))
  }

  /** A name written after a lead without '<' is read as typed. */
  lemma ParseFieldOf(lead: string, name: string, category: string, lookup: (string, string) -> string)
    requires '<' !in lead && '<' !in name
    ensures ParseField(lead + "<" + name, category, lookup) == TypedField(category, name, lookup)
  {
    assert lead + "<" + name == lead + ['<'] + name;
    SplitAround(lead, '<', name);
    SplitPieces(lead, '<');
    SplitPieces(name, '<');
  }

  /** Fields that each parse give the whole list. */
  lemma {:induction false} ParseFieldsAllOk(params: seq<string>, lookup: (string, string) -> string, n: nat, fs: seq<(string, string)>)
    requires n <= 4 <= |params| && |fs| == n
    requires forall i :: 0 <= i < n ==> ParseField(params[i], Categories[i], lookup) == Ok(fs[i])
    ensures ParseFields(params, lookup, n) == Ok(fs)
  {
    if n > 0 {
      ParseFieldsAllOk(params, lookup, n - 1, fs[..n - 1]);
      assert fs == fs[..n - 1] + [fs[n - 1]];
    }
  }

  lemma SpecFlat(prefix: string, rule: FilterRule, post: string)
    ensures prefix + FilterSpec(rule) + post
         == (prefix + "<" + rule.person) + ">" + (" <" + rule.corp) + ">" + (" <" + rule.alliance) + ">"
            + (" <" + rule.system) + ">" + post
  {
  }

  /** A later parameter: a space, '<' and the name. */
  lemma ParseFieldSpaced(name: string, category: string, lookup: (string, string) -> string)
    requires '<' !in name
    ensures ParseField(" <" + name, category, lookup) == TypedField(category, name, lookup)
  {
    assert " <" + name == " " + "<" + name;
    ParseFieldOf(" ", name, category, lookup);
  }

  /** The four parameters of a rule typed in list syntax are read as typed. */
  lemma SpecFields(prefix: string, rule: FilterRule, post: string, lookup: (string, string) -> string)
    requires '<' !in prefix && '>' !in prefix
    requires forall i :: 0 <= i < 4 ==> '<' !in Names(rule)[i] && '>' !in Names(rule)[i]
    ensures var params := Split(prefix + FilterSpec(rule) + post, '>');
      && |params| >= 5
      && forall i :: 0 <= i < 4 ==>
           ParseField(params[i], Categories[i], lookup) == TypedField(Categories[i], Names(rule)[i], lookup)
  {
    var n := Names(rule);
    assert '<' !in n[0] && '<' !in n[1] && '<' !in n[2] && '<' !in n[3];
    assert '>' !in n[0] && '>' !in n[1] && '>' !in n[2] && '>' !in n[3];
    var p0 := prefix + "<" + rule.person;
    var p1 := " <" + rule.corp;
    var p2 := " <" + rule.alliance;
    var p3 := " <" + rule.system;
    SpecFlat(prefix, rule, post);
    assert '>' !in p1 && '>' !in p2 && '>' !in p3 && '>' !in p0;
    SplitFourClosed(p0, p1, p2, p3, post);
    ParseFieldOf(prefix, rule.person, Categories[0], lookup);
    ParseFieldSpaced(rule.corp, Categories[1], lookup);
    ParseFieldSpaced(rule.alliance, Categories[2], lookup);
    ParseFieldSpaced(rule.system, Categories[3], lookup);
  }

  /** A typed rule whose first unacceptable name is too short is refused
      with that name, whatever follows it. */
  lemma ShortNameRejected(prefix: string, rule: FilterRule, post: string, lookup: (string, string) -> string, k: nat)
    requires '<' !in prefix && '>' !in prefix
    requires forall i :: 0 <= i < 4 ==> '<' !in Names(rule)[i] && '>' !in Names(rule)[i]
    requires k < 4 && Names(rule)[k] != Wildcard && Utf8Length(Names(rule)[k]) < 3
    requires forall i :: 0 <= i < k ==> Names(rule)[i] == Wildcard || Utf8Length(Names(rule)[i]) >= 3
    ensures ParseFilterRule(prefix + FilterSpec(rule) + post, lookup) == Err(ParameterTooShort(Names(rule)[k]))
  {
    SpecFields(prefix, rule, post, lookup);
    var params := Split(prefix + FilterSpec(rule) + post, '>');
    var fs := seq(k, i requires 0 <= i < k => (Names(rule)[i], Resolve(Categories[i], Names(rule)[i], lookup)));
    ParseFieldsAllOk(params, lookup, k, fs);
    FieldsFailAt(params, lookup, k, 4);
  }

  /** Four closed parameters that each parse give the rule of their fields. */
  lemma ParseFourFields(p0: string, p1: string, p2: string, p3: string, post: string,
                        lookup: (string, string) -> string, fs: seq<(string, string)>)
    requires '>' !in p0 && '>' !in p1 && '>' !in p2 && '>' !in p3
    requires |fs| == 4
    requires ParseField(p0, Categories[0], lookup) == Ok(fs[0])
    requires ParseField(p1, Categories[1], lookup) == Ok(fs[1])
    requires ParseField(p2, Categories[2], lookup) == Ok(fs[2])
    requires ParseField(p3, Categories[3], lookup) == Ok(fs[3])
    ensures ParseFilterRule(p0 + ">" + p1 + ">" + p2 + ">" + p3 + ">" + post, lookup)
         == Ok(FilterRule(fs[0].0, fs[1].0, fs[2].0, fs[3].0, fs[0].1, fs[1].1, fs[2].1, fs[3].1))
  {
    SplitFourClosed(p0, p1, p2, p3, post);
    var params := Split(p0 + ">" + p1 + ">" + p2 + ">" + p3 + ">" + post, '>');
    ParseFieldsAllOk(params, lookup, 4, fs);
  }

  /** The names of a rendered rule, typed back after a prefix without
      brackets, are read back exactly and resolved afresh. */
  lemma ParseFilterSpec(prefix: string, rule: FilterRule, post: string, lookup: (string, string) -> string)
    requires '<' !in prefix && '>' !in prefix
    requires forall i :: 0 <= i < 4 ==> Acceptable(Names(rule)[i])
    ensures ParseFilterRule(prefix + FilterSpec(rule) + post, lookup)
         == Ok(FilterRule(rule.person, rule.corp, rule.alliance, rule.system,
                          Resolve(Categories[0], rule.person, lookup), Resolve(Categories[1], rule.corp, lookup),
                          Resolve(Categories[2], rule.alliance, lookup), Resolve(Categories[3], rule.system, lookup)))
  {
    var n := Names(rule);
    assert Acceptable(n[0]) && Acceptable(n[1]) && Acceptable(n[2]) && Acceptable(n[3]);
    var p0 := prefix + "<" + rule.person;
    var p1 := " <" + rule.corp;
    var p2 := " <" + rule.alliance;
    var p3 := " <" + rule.system;
    SpecFlat(prefix, rule, post);
    assert '>' !in p1 && '>' !in p2 && '>' !in p3 && '>' !in p0;
    var fs := [(rule.person, Resolve(Categories[0], rule.person, lookup)),
               (rule.corp, Resolve(Categories[1], rule.corp, lookup)),
               (rule.alliance, Resolve(Categories[2], rule.alliance, lookup)),
               (rule.system, Resolve(Categories[3], rule.system, lookup))];
    ParseFieldOf(prefix, rule.person, Categories[0], lookup);
    ParseFieldSpaced(rule.corp, Categories[1], lookup);
    ParseFieldSpaced(rule.alliance, Categories[2], lookup);
    ParseFieldSpaced(rule.system, Categories[3], lookup);
    ParseFourFields(p0, p1, p2, p3, post, lookup, fs);
  }

  /** A rule parsed from its own rendering keeps its names. */
  lemma AddedRuleListsAsTyped(prefix: string, rule: FilterRule, post: string, lookup: (string, string) -> string)
    requires '<' !in prefix && '>' !in prefix
    requires forall i :: 0 <= i < 4 ==> Acceptable(Names(rule)[i])
    ensures var r := ParseFilterRule(prefix + FilterSpec(rule) + post, lookup);
      r.Ok? && FilterSpec(r.value) == FilterSpec(rule)
  {
    ParseFilterSpec(prefix, rule, post, lookup);
  }
}
