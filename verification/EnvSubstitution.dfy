/** Substitution of environment references in configuration values. */
module EnvSubstitution {
  import opened Wrappers

  type Environ = string -> Option<string>

  // ----- what the scanner outputs for the rest of its input, state by state

  function Normal(s: string, env: Environ): string
    decreases |s|
  {
    if s == [] then []
    else if s[0] == '$' then Dollar(s[1..], env)
    else [s[0]] + Normal(s[1..], env)
  }

  function Dollar(s: string, env: Environ): string
    decreases |s|
  {
    if s == [] then []
    else if s[0] == '$' then "$" + Normal(s[1..], env)
    else if s[0] == '{' then Begin("", s[1..], env)
    else "$" + [s[0]] + Normal(s[1..], env)
  }

  /** Inside a reference; `name` is what was read since the last marker. */
  function Begin(name: string, s: string, env: Environ): string
    decreases |s|
  {
    if s == [] then []
    else if s[0] == '}' then env(name).GetOr("") + Normal(s[1..], env)
    else if s[0] == ':' then
      if name == "env" then Begin("", s[1..], env)
      else if |s| > 1 && s[1] == '-' then
        // the index moves past the marker and then once more with the loop
        if |s| > 2 then Default(name, [s[2]], s[3..], env) else []
      else Begin(name + [s[0]], s[1..], env)
    else Begin(name + [s[0]], s[1..], env)
  }

  /** Inside a default; `text` is the default read so far. */
  function Default(name: string, text: string, s: string, env: Environ): string
    decreases |s|
  {
    if s == [] then []
    else if s[0] == '}' then env(name).GetOr(text) + Normal(s[1..], env)
    else Default(name, text + [s[0]], s[1..], env)
  }

  // ----- the scanner

  datatype State = NormalState | DollarState | BeginState | DefaultState

  /** The indices the scanner keeps in each state. */
  predicate InRange(value: string, i: nat, state: State, begin: int, end: int) {
    match state
    case NormalState => i <= |value|
    case DollarState => i <= |value|
    case BeginState => 0 <= begin <= i <= |value|
    case DefaultState => 0 <= begin <= end <= |value| && end + 2 < i
  }

  /** What is still to come from index `i` on. */
  function Rest(value: string, i: nat, state: State, begin: int, end: int, env: Environ): string
    requires InRange(value, i, state, begin, end)
  {
    match state
    case NormalState => Normal(value[i..], env)
    case DollarState => Dollar(value[i..], env)
    case BeginState => Begin(value[begin..i], value[i..], env)
    case DefaultState => if i > |value| then [] else Default(value[begin..end], value[end + 2..i], value[i..], env)
  }

  method EnvSubstitute(value: string, env: Environ) returns (output: string)
    ensures output == Normal(value, env)
  {
    hide Rest, Normal;
    RestAtStart(value, env);
    var state := NormalState;
    output := "";
    var begin, end := -1, -1;
    var i := 0;
    while i < |value|
      invariant 0 <= i && InRange(value, i, state, begin, end)
      invariant output + Rest(value, i, state, begin, end, env) == Normal(value, env)
      decreases |value| - i
    {
      var c := value[i];
      ghost var out0, state0, i0, begin0, end0 := output, state, i, begin, end;
      match state {
        case NormalState =>
          if c == '$' {
            state := DollarState;
          } else {
            output := output + [c];
          }
        case DollarState =>
          if c == '$' {
            output := output + "$";
            state := NormalState;
          } else if c == '{' {
            state := BeginState;
            begin := i + 1;
          } else {
            output := output + "$";
            output := output + [c];
            state := NormalState;
          }
        case BeginState =>
          if c == '}' {
            var replaced := env(value[begin..i]);
            if replaced.Some? {
              output := output + replaced.value;
            }
            state := NormalState;
          } else if c == ':' {
            if value[begin..i] == "env" {
              begin := i + 1;
            } else if i + 1 < |value| && value[i + 1] == '-' {
              end := i;
              i := i + 2;
              state := DefaultState;
            }
          }
        case DefaultState =>
          if c == '}' {
            var replaced := env(value[begin..end]);
            if replaced.None? {
              output := output + value[end + 2..i];
            } else {
              output := output + replaced.value;
            }
            state := NormalState;
          }
      }
      i := i + 1;
      OutputStep(out0, value, i0, state0, begin0, end0, env);
      assert output == out0 + Emits(value, i0, state0, begin0, end0, env);
    }
    RestAtEnd(value, i, state, begin, end, env);
  }

  lemma {:induction false} RestAtStart(value: string, env: Environ)
    ensures Rest(value, 0, NormalState, -1, -1, env) == Normal(value, env)
  {
    assert value[0..] == value;
  }

  lemma {:induction false} RestAtEnd(value: string, i: nat, state: State, begin: int, end: int, env: Environ)
    requires i >= |value| && InRange(value, i, state, begin, end)
    ensures Rest(value, i, state, begin, end, env) == []
  {
  }

  /** What one turn of the loop appends to the output. */
  function Emits(value: string, i: nat, state: State, begin: int, end: int, env: Environ): string
    requires i < |value| && InRange(value, i, state, begin, end)
  {
    var c := value[i];
    match state
    case NormalState => if c == '$' then "" else [c]
    case DollarState => if c == '$' then "$" else if c == '{' then "" else "$" + [c]
    case BeginState => if c == '}' then env(value[begin..i]).GetOr("") else ""
    case DefaultState => if c == '}' then env(value[begin..end]).GetOr(value[end + 2..i]) else ""
  }

  /** Where one turn of the loop leaves the index, the state and the markers. */
  function Moves(value: string, i: nat, state: State, begin: int, end: int): (nat, State, int, int)
    requires i < |value| && InRange(value, i, state, begin, end)
  {
    var c := value[i];
    match state
    case NormalState => (i + 1, if c == '$' then DollarState else NormalState, begin, end)
    case DollarState => if c == '{' then (i + 1, BeginState, i + 1, end) else (i + 1, NormalState, begin, end)
    case BeginState =>
      if c == '}' then (i + 1, NormalState, begin, end)
      else if c == ':' && value[begin..i] == "env" then (i + 1, BeginState, i + 1, end)
      else if c == ':' && i + 1 < |value| && value[i + 1] == '-' then (i + 3, DefaultState, begin, i)
      else (i + 1, BeginState, begin, end)
    case DefaultState => (i + 1, if c == '}' then NormalState else DefaultState, begin, end)
  }

  lemma {:induction false} RestStep(value: string, i: nat, state: State, begin: int, end: int, env: Environ)
    requires i < |value| && InRange(value, i, state, begin, end)
    ensures var (j, next, b, e) := Moves(value, i, state, begin, end);
            && InRange(value, j, next, b, e)
            && Rest(value, i, state, begin, end, env) ==
                Emits(value, i, state, begin, end, env) + Rest(value, j, next, b, e, env)
  {
    match state
    case NormalState => NormalStep(value, i, env);
    case DollarState => NormalStep(value, i, env);
    case BeginState => BeginStep(value, i, begin, end, env);
    case DefaultState => DefaultStep(value, i, begin, end, env);
  }

  lemma {:induction false} NormalStep(value: string, i: nat, env: Environ)
    requires i < |value|
    ensures var s := value[i..]; s[0] == value[i] && s[1..] == value[i + 1..] && value[i + 1..i + 1] == ""
  {
  }

  lemma {:induction false} BeginStep(value: string, i: nat, begin: int, end: int, env: Environ)
    requires i < |value| && InRange(value, i, BeginState, begin, end)
    ensures var (j, next, b, e) := Moves(value, i, BeginState, begin, end);
            && InRange(value, j, next, b, e)
            && Rest(value, i, BeginState, begin, end, env) ==
                Emits(value, i, BeginState, begin, end, env) + Rest(value, j, next, b, e, env)
  {
    hide Normal, Default;
    var s := value[i..];
    NormalStep(value, i, env);
    assert value[begin..i] + [value[i]] == value[begin..i + 1];
    if i + 2 < |value| {
      assert s[2] == value[i + 2] && s[3..] == value[i + 3..] && value[i + 2..i + 3] == [s[2]];
    }
  }

  lemma {:induction false} DefaultStep(value: string, i: nat, begin: int, end: int, env: Environ)
    requires i < |value| && InRange(value, i, DefaultState, begin, end)
    ensures var (j, next, b, e) := Moves(value, i, DefaultState, begin, end);
            && InRange(value, j, next, b, e)
            && Rest(value, i, DefaultState, begin, end, env) ==
                Emits(value, i, DefaultState, begin, end, env) + Rest(value, j, next, b, e, env)
  {
    hide Normal, Begin;
    NormalStep(value, i, env);
    assert value[end + 2..i] + [value[i]] == value[end + 2..i + 1];
  }

  lemma {:induction false} OutputStep(output: string, value: string, i: nat, state: State, begin: int, end: int,
      env: Environ)
    requires i < |value| && InRange(value, i, state, begin, end)
    ensures var (j, next, b, e) := Moves(value, i, state, begin, end);
            && InRange(value, j, next, b, e)
            && output + Rest(value, i, state, begin, end, env)
               == output + Emits(value, i, state, begin, end, env) + Rest(value, j, next, b, e, env)
  {
    RestStep(value, i, state, begin, end, env);
    hide Rest, Emits, Moves;
  }

  // ----- templates

  /** A piece of a template: text with its dollars doubled, a single dollar before some character, or a reference to
      a variable with an optional `env:` and default. */
  datatype Item =
    | Literal(text: string)
    | LoneDollar(next: char)
    | Ref(prefixed: bool, name: string, default: Option<string>)

  /** No colon of `s` is followed by a dash. */
  predicate NoMarker(s: string) {
    forall i :: 0 <= i < |s| - 1 && s[i] == ':' ==> s[i + 1] != '-'
  }

  /** The forms the syntax can express: no default marker and no prefix in a name, and no closing brace at all. */
  predicate WellFormed(t: Item) {
    match t
    case Literal(_) => true
    case LoneDollar(next) => next != '$' && next != '{'
    case Ref(_, name, default) =>
      && NoMarker(name) && '}' !in name && !("env:" <= name)
      && (default.Some? ==> '}' !in default.value)
  }

  function Escape(text: string): string {
    if text == [] then []
    else (if text[0] == '$' then "$$" else [text[0]]) + Escape(text[1..])
  }

  function PrintItem(t: Item): string {
    match t
    case Literal(text) => Escape(text)
    case LoneDollar(next) => ['$', next]
    case Ref(prefixed, name, default) =>
      "${" + ((if prefixed then "env:" else "") + (name + ((if default.Some? then ":-" + default.value else "") + "}")))
  }

  function Print(ts: seq<Item>): string {
    if ts == [] then [] else PrintItem(ts[0]) + Print(ts[1..])
  }

  function EvalItem(t: Item, env: Environ): string {
    match t
    case Literal(text) => text
    case LoneDollar(next) => ['$', next]
    case Ref(_, name, default) => env(name).GetOr(default.GetOr(""))
  }

  function Eval(ts: seq<Item>, env: Environ): string {
    if ts == [] then [] else EvalItem(ts[0], env) + Eval(ts[1..], env)
  }

  /** A default the scanner misreads: an empty one is not closed, and after a variable `env` it is taken for a name. */
  predicate Misread(t: Item) {
    t.Ref? && t.default.Some? && (t.default.value == "" || t.name == "env")
  }

  lemma {:induction false} NormalEscape(text: string, rest: string, env: Environ)
    ensures Normal(Escape(text) + rest, env) == text + Normal(rest, env)
    decreases text
  {
    hide Normal, Escape;
    EscapeNothing(rest);
    if text == [] {
      assert text + Normal(rest, env) == Normal(rest, env);
    } else {
      NormalEscape(text[1..], rest, env);
      NormalEscapeOne(text[0], Escape(text[1..]) + rest, env);
      EscapeUnfold(text, rest);
      assert text + Normal(rest, env) == [text[0]] + (text[1..] + Normal(rest, env));
    }
  }

  lemma {:induction false} EscapeNothing(rest: string)
    ensures Escape([]) + rest == rest
  {
  }

  lemma {:induction false} EscapeUnfold(text: string, rest: string)
    requires text != []
    ensures Escape(text) + rest == (if text[0] == '$' then "$$" else [text[0]]) + (Escape(text[1..]) + rest)
  {
  }

  lemma {:induction false} NormalEscapeOne(c: char, rest: string, env: Environ)
    ensures Normal((if c == '$' then "$$" else [c]) + rest, env) == [c] + Normal(rest, env)
  {
    if c == '$' {
      assert ("$$" + rest)[1..] == "$" + rest && ("$" + rest)[1..] == rest;
    } else {
      assert ([c] + rest)[1..] == rest;
    }
  }

  lemma {:induction false} NotPrefixed(read: string, name: string)
    requires name != "" && name[0] == ':' ==> !("env:" <= read + name)
    ensures name != "" && name[0] == ':' ==> read != "env"
  {
  }

  /** Reading a name up to what follows it. */
  lemma {:induction false} BeginName(read: string, name: string, rest: string, env: Environ)
    requires NoMarker(name) && '}' !in name && !("env:" <= read + name)
    requires rest != "" ==> rest[0] != '-'
    ensures Begin(read, name + rest, env) == Begin(read + name, rest, env)
    decreases name
  {
    if name == [] {
      assert name + rest == rest && read + name == read;
    } else {
      var s := name + rest;
      assert s[1..] == name[1..] + rest;
      assert read + [name[0]] + name[1..] == read + name;
      assert |s| > 1 && name[0] == ':' ==> s[1] != '-' by {
        assert |name| > 1 ==> s[1] == name[1];
      }
      NotPrefixed(read, name);
      forall i | 0 <= i < |name[1..]| - 1 && name[1..][i] == ':' ensures name[1..][i + 1] != '-' {
        assert name[i + 1] == ':';
      }
      BeginName(read + [name[0]], name[1..], rest, env);
    }
  }

  lemma {:induction false} DefaultText(name: string, read: string, text: string, rest: string, env: Environ)
    requires '}' !in text
    ensures Default(name, read, text + rest, env) == Default(name, read + text, rest, env)
    decreases text
  {
    if text == [] {
      assert text + rest == rest && read + text == read;
    } else {
      assert (text + rest)[1..] == text[1..] + rest;
      assert read + [text[0]] + text[1..] == read + text;
      DefaultText(name, read + [text[0]], text[1..], rest, env);
    }
  }

  /** Reading a printed reference up to its name. */
  lemma {:induction false} ReadName(t: Item, rest: string, env: Environ)
    requires t.Ref? && WellFormed(t)
    ensures var after := (if t.default.Some? then ":-" + t.default.value else "") + "}";
            Normal(PrintItem(t) + rest, env) == Begin(t.name, after + rest, env)
  {
    hide Normal, Begin, Default;
    var after := (if t.default.Some? then ":-" + t.default.value else "") + "}";
    var body := t.name + (after + rest);
    var inner := (if t.prefixed then "env:" else "") + body;
    assert PrintItem(t) + rest == "${" + inner;
    OpenReference(inner, env);
    if t.prefixed {
      DropPrefix(body, env);
    }
    BeginName("", t.name, after + rest, env);
    assert "" + t.name == t.name && "" + body == body;
  }

  lemma {:induction false} OpenReference(inner: string, env: Environ)
    ensures Normal("${" + inner, env) == Begin("", inner, env)
  {
    assert ("${" + inner)[1..] == "{" + inner && ("{" + inner)[1..] == inner;
  }

  lemma {:induction false} DropPrefix(body: string, env: Environ)
    ensures Begin("", "env:" + body, env) == Begin("", body, env)
  {
    BeginName("", "env", ":" + body, env);
    assert "env:" + body == "env" + (":" + body) && "" + "env" == "env" && (":" + body)[1..] == body;
  }

  lemma {:induction false} NormalItem(t: Item, rest: string, env: Environ)
    requires WellFormed(t) && !Misread(t)
    ensures Normal(PrintItem(t) + rest, env) == EvalItem(t, env) + Normal(rest, env)
  {
    match t
    case Literal(text) => NormalEscape(text, rest, env);
    case LoneDollar(next) => assert (['$', next] + rest)[1..] == [next] + rest && ([next] + rest)[1..] == rest;
    case Ref(_, name, default) =>
      ReadName(t, rest, env);
      if default.Some? {
        var d := default.value;
        var s := ":-" + d + "}" + rest;
        assert s == ":-" + [d[0]] + (d[1..] + ("}" + rest));
        assert s[2] == d[0] && s[3..] == d[1..] + ("}" + rest);
        DefaultText(name, [d[0]], d[1..], "}" + rest, env);
        assert [d[0]] + d[1..] == d;
        assert ("}" + rest)[1..] == rest;
      } else {
        assert ("" + "}" + rest)[1..] == rest;
      }
  }

  /** A printed template is read to its end, and evaluated, before what follows it. */
  lemma {:induction false} ScanPrefix(ts: seq<Item>, rest: string, env: Environ)
    requires forall t :: t in ts ==> WellFormed(t) && !Misread(t)
    ensures Normal(Print(ts) + rest, env) == Eval(ts, env) + Normal(rest, env)
  {
    hide Normal, PrintItem, EvalItem;
    if ts == [] {
      assert Print(ts) + rest == rest && Eval(ts, env) + Normal(rest, env) == Normal(rest, env);
    } else {
      assert Print(ts) + rest == PrintItem(ts[0]) + (Print(ts[1..]) + rest);
      NormalItem(ts[0], Print(ts[1..]) + rest, env);
      ScanPrefix(ts[1..], rest, env);
      assert EvalItem(ts[0], env) + (Eval(ts[1..], env) + Normal(rest, env)) == Eval(ts, env) + Normal(rest, env);
    }
  }

  /** Scanning a printed template evaluates it, when no default is misread. */
  lemma {:induction false} ScanEvaluates(ts: seq<Item>, env: Environ)
    requires forall t :: t in ts ==> WellFormed(t) && !Misread(t)
    ensures Normal(Print(ts), env) == Eval(ts, env)
  {
    ScanPrefix(ts, "", env);
    assert Print(ts) + "" == Print(ts) && Normal("", env) == "";
  }

  lemma {:induction false} DefaultUnfinished(name: string, text: string, s: string, env: Environ)
    requires '}' !in s
    ensures Default(name, text, s, env) == ""
    decreases |s|
  {
    if s != [] {
      DefaultUnfinished(name, text + [s[0]], s[1..], env);
    }
  }

  lemma {:induction false} BeginUnfinished(name: string, s: string, env: Environ)
    requires '}' !in s
    ensures Begin(name, s, env) == ""
    decreases |s|
  {
    hide Default;
    if s != [] {
      BeginUnfinished("", s[1..], env);
      BeginUnfinished(name + [s[0]], s[1..], env);
      if |s| > 2 {
        DefaultUnfinished(name, [s[2]], s[3..], env);
      }
    }
  }

  /** A reference that is not closed is dropped with all that follows, and so is a dollar sign at the very end. */
  lemma {:induction false} UnfinishedDropped(ts: seq<Item>, s: string, env: Environ)
    requires forall t :: t in ts ==> WellFormed(t) && !Misread(t)
    ensures '}' !in s ==> Normal(Print(ts) + ("${" + s), env) == Eval(ts, env)
    ensures Normal(Print(ts) + "$", env) == Eval(ts, env)
  {
    ScanPrefix(ts, "${" + s, env);
    ScanPrefix(ts, "$", env);
    OpenReference(s, env);
    if '}' !in s {
      BeginUnfinished("", s, env);
    }
  }

  // ----- misread defaults

  /** What follows the first closing brace, if there is one. */
  function AfterBrace(s: string): (r: Option<string>)
    ensures r.Some? ==> |r.value| < |s|
  {
    if s == [] then None else if s[0] == '}' then Some(s[1..]) else AfterBrace(s[1..])
  }

  lemma {:induction false} DefaultRunsOn(name: string, read: string, s: string, env: Environ)
    ensures env(name).Some? ==>
      Default(name, read, s, env) ==
        if AfterBrace(s).None? then "" else env(name).value + Normal(AfterBrace(s).value, env)
    decreases |s|
  {
    if s != [] && s[0] != '}' {
      DefaultRunsOn(name, read + [s[0]], s[1..], env);
    }
  }

  lemma {:induction false} AfterBraceSkips(a: string, b: string)
    ensures '}' !in a ==> AfterBrace(a + b) == AfterBrace(b)
    decreases a
  {
    if a == [] {
      assert a + b == b;
    } else {
      assert (a + b)[1..] == a[1..] + b;
      AfterBraceSkips(a[1..], b);
    }
  }

  /** Every variable is set to one character, and `env` to two. */
  const ALL_SET: Environ := name => Some(if name == "env" then "vv" else "v")

  /** With these variables the scanner never outputs more than the template's value, and outputs less when a
      default is misread; nor does it output as much from behind the first closing brace. */
  lemma {:induction false} NeverMore(ts: seq<Item>)
    requires forall t :: t in ts ==> WellFormed(t)
    ensures |Normal(Print(ts), ALL_SET)| <= |Eval(ts, ALL_SET)|
    ensures (exists t :: t in ts && Misread(t)) ==> |Normal(Print(ts), ALL_SET)| < |Eval(ts, ALL_SET)|
    ensures AfterBrace(Print(ts)).Some? ==> |Normal(AfterBrace(Print(ts)).value, ALL_SET)| < |Eval(ts, ALL_SET)|
    decreases ts
  {
    if ts != [] {
      var t, rest := ts[0], ts[1..];
      NeverMore(rest);
      if Misread(t) {
        MisreadLoses(t, Print(rest), |Eval(rest, ALL_SET)|);
      } else {
        NormalItem(t, Print(rest), ALL_SET);
      }
      match t
      case Literal(text) => BraceInLiteral(text, Print(rest));
      case LoneDollar(next) => BraceAfterDollar(next, Print(rest));
      case Ref(_, _, _) => BraceInRef(t, Print(rest));
    }
  }

  /** What follows a reference outputs at most `bound` characters, also when read from behind its first brace. */
  predicate AtMost(rest: string, bound: nat) {
    && |Normal(rest, ALL_SET)| <= bound
    && (AfterBrace(rest).Some? ==> |Normal(AfterBrace(rest).value, ALL_SET)| < bound)
  }

  lemma {:induction false} MisreadLoses(t: Item, rest: string, bound: nat)
    requires WellFormed(t) && Misread(t) && AtMost(rest, bound)
    ensures |Normal(PrintItem(t) + rest, ALL_SET)| < |EvalItem(t, ALL_SET)| + bound
  {
    hide Normal, Begin, AtMost, PrintItem;
    ReadName(t, rest, ALL_SET);
    var d := t.default.value;
    var after := "}" + rest;
    assert ":-" + d + "}" + rest == ":-" + (d + after);
    if t.name == "env" {
      EnvMarker(d + after, ALL_SET);
      DashName("-", d, rest, bound);
    } else {
      DefaultUnclosed(t.name, rest, bound);
      assert d + after == after;
    }
  }

  /** After `env` the colon is dropped, and the dash starts a name. */
  lemma {:induction false} EnvMarker(s: string, env: Environ)
    ensures Begin("env", ":-" + s, env) == Begin("-", s, env)
  {
    assert (":-" + s)[1..] == "-" + s && ("-" + s)[1..] == s;
    assert "" + "-" == "-";
  }

  /** A default marker right before a closing brace. */
  lemma {:induction false} DefaultUnclosed(name: string, rest: string, bound: nat)
    requires name != "env" && AtMost(rest, bound)
    ensures |Begin(name, ":-" + ("}" + rest), ALL_SET)| <= bound
  {
    var s := ":-" + ("}" + rest);
    assert s[2] == '}' && s[3..] == rest;
    DefaultRunsOn(name, "}", rest, ALL_SET);
  }

  /** A name that starts with a dash is some unset-looking variable, of one character here. */
  lemma {:induction false} DashName(name: string, s: string, rest: string, bound: nat)
    requires name != "" && name[0] == '-' && '}' !in s && AtMost(rest, bound)
    ensures |Begin(name, s + ("}" + rest), ALL_SET)| <= 1 + bound
    decreases |s|
  {
    var after := "}" + rest;
    var all := s + after;
    if s == [] {
      assert all == after && after[1..] == rest;
    } else if s[0] == ':' && |s| > 1 && s[1] == '-' {
      if |s| == 2 {
        assert all == ":-" + after;
        DefaultUnclosed(name, rest, bound);
      } else {
        assert all[2] == s[2] && all[3..] == s[3..] + after && after[1..] == rest;
        DefaultText(name, [s[2]], s[3..], after, ALL_SET);
      }
    } else {
      assert all[1..] == s[1..] + after && (|s| == 1 ==> all[1] == '}');
      DashName(name + [s[0]], s[1..], rest, bound);
    }
  }

  lemma {:induction false} BraceInRef(t: Item, rest: string)
    requires t.Ref? && WellFormed(t)
    ensures AfterBrace(PrintItem(t) + rest) == Some(rest)
  {
    var named := t.name + (if t.default.Some? then ":-" + t.default.value else "");
    var before := "${" + ((if t.prefixed then "env:" else "") + named);
    assert PrintItem(t) + rest == before + ("}" + rest);
    AfterBraceSkips(before, "}" + rest);
    assert ("}" + rest)[1..] == rest;
  }

  /** The first closing brace of a literal is its own, or that of what follows. */
  lemma {:induction false} BraceInLiteral(text: string, rest: string)
    ensures '}' !in text ==> AfterBrace(Escape(text) + rest) == AfterBrace(rest)
    ensures '}' in text ==>
              && AfterBrace(Escape(text) + rest).Some?
              && |Normal(AfterBrace(Escape(text) + rest).value, ALL_SET)| < |text| + |Normal(rest, ALL_SET)|
    decreases text
  {
    hide Normal, Escape;
    EscapeNothing(rest);
    if text != [] {
      var tail := Escape(text[1..]) + rest;
      EscapeUnfold(text, rest);
      BraceInLiteral(text[1..], rest);
      if text[0] == '}' {
        NormalEscape(text[1..], rest, ALL_SET);
        BraceFirst(tail);
      } else {
        AfterBraceSkips(if text[0] == '$' then "$$" else [text[0]], tail);
        assert text == [text[0]] + text[1..];
      }
    }
  }

  lemma {:induction false} BraceAfterDollar(next: char, rest: string)
    ensures AfterBrace(['$', next] + rest) == if next == '}' then Some(rest) else AfterBrace(rest)
  {
    assert ['$', next] + rest == ['$'] + ([next] + rest);
    AfterBraceSkips(['$'], [next] + rest);
    assert ([next] + rest)[1..] == rest;
  }

  lemma {:induction false} BraceFirst(tail: string)
    ensures AfterBrace("}" + tail) == Some(tail)
  {
    assert ("}" + tail)[1..] == tail;
  }

  /** Scanning agrees with evaluation in every environment exactly when no default is misread. */
  lemma {:induction false} EvaluatesIffNoneMisread(ts: seq<Item>)
    requires forall t :: t in ts ==> WellFormed(t)
    ensures (forall env: Environ :: Normal(Print(ts), env) == Eval(ts, env)) <==> forall t :: t in ts ==> !Misread(t)
  {
    if forall t :: t in ts ==> !Misread(t) {
      forall env: Environ ensures Normal(Print(ts), env) == Eval(ts, env) {
        ScanEvaluates(ts, env);
      }
    } else {
      NeverMore(ts);
      assert Normal(Print(ts), ALL_SET) != Eval(ts, ALL_SET);
    }
  }

  /** Two templates that are misread when nothing is set: the first has the value "x", the second "b}". */
  lemma {:induction false} MisreadExamples(nothing: Environ)
    requires forall name :: nothing(name) == None
    ensures Print([Ref(false, "env", Some("x"))]) == "${env:-x}" && Normal("${env:-x}", nothing) == ""
    ensures Print([Ref(false, "X", Some("")), Literal("b}")]) == "${X:-}b}" && Normal("${X:-}b}", nothing) == "}b"
  {
    EnvExample(nothing);
    EmptyExample(nothing);
  }

  lemma {:induction false} EnvExample(nothing: Environ)
    requires forall name :: nothing(name) == None
    ensures Print([Ref(false, "env", Some("x"))]) == "${env:-x}" && Normal("${env:-x}", nothing) == ""
  {
    hide Normal, Begin;
    var ts := [Ref(false, "env", Some("x"))];
    assert ts[1..] == [] && PrintItem(ts[0]) == "${env:-x}";
    assert "${env:-x}" == "${" + ("env:" + "-x}");
    OpenReference("env:" + "-x}", nothing);
    DropPrefix("-x}", nothing);
    BeginName("", "-x", "}", nothing);
    assert "-x" + "}" == "-x}" && "" + "-x" == "-x";
    NameEnds("-x", nothing);
  }

  lemma {:induction false} NameEnds(name: string, env: Environ)
    ensures Begin(name, "}", env) == env(name).GetOr("")
  {
  }

  lemma {:induction false} EmptyExample(nothing: Environ)
    requires forall name :: nothing(name) == None
    ensures Print([Ref(false, "X", Some("")), Literal("b}")]) == "${X:-}b}" && Normal("${X:-}b}", nothing) == "}b"
  {
    hide Normal, Begin, Default;
    var ts := [Ref(false, "X", Some("")), Literal("b}")];
    assert ts[1..] == [Literal("b}")] && ts[1..][1..] == [];
    assert PrintItem(ts[0]) == "${X:-}" && Escape("b}") == "b}" by {
      assert "b}"[1..] == "}" && "}"[1..] == "";
    }
    assert "${X:-}b}" == "${" + ("X" + ":-}b}");
    OpenReference("X" + ":-}b}", nothing);
    BeginName("", "X", ":-}b}", nothing);
    assert "" + "X" == "X";
    DefaultRead("X", nothing);
  }

  lemma {:induction false} DefaultRead(name: string, nothing: Environ)
    requires nothing(name) == None && name != "env"
    ensures Begin(name, ":-}b}", nothing) == "}b"
  {
    assert ":-}b}"[3..] == "b" + "}";
    DefaultText(name, "}", "b", "}", nothing);
    assert "}" + "b" == "}b" && "}"[1..] == "";
  }
}
