/**
 * The UGI `go` command: its settings, the parser that fills them word by word, and
 * `to_ugi_string`, which prints them back.
 */
module Go {
  import opened Wrappers
  import opened Decimal
  import opened Words

  datatype GoKind = Search | Perft | FastPerft | SplitPerft

  /** Times and increments are `i32` milliseconds, `nodes` a `u64` budget. */
  datatype GoSettings = GoSettings(
    kind: GoKind,
    p1time: Option<int>,
    p2time: Option<int>,
    p1inc: Option<int>,
    p2inc: Option<int>,
    depth: Option<int>,
    nodes: Option<nat>,
    movetime: Option<int>,
    movestogo: Option<int>)

  const DefaultSettings := GoSettings(Search, None, None, None, None, None, None, None, None)

  const Failure := "Uh oh"

  /** The options that take a value. */
  datatype Opt = P1Time | P2Time | P1Inc | P2Inc | Depth | Nodes | MoveTime | MovesToGo

  function OptName(o: Opt): string
  {
    match o
    case P1Time => "p1time"
    case P2Time => "p2time"
    case P1Inc => "p1inc"
    case P2Inc => "p2inc"
    case Depth => "depth"
    case Nodes => "nodes"
    case MoveTime => "movetime"
    case MovesToGo => "movestogo"
  }

  /** What a word means to the parser: a kind, an option that takes a value, or nothing. */
  datatype Token = KindToken(kind: GoKind) | OptionToken(opt: Opt) | OtherToken

  function Classify(w: string): Token
  {
    match w
    case "search" => KindToken(Search)
    case "perft" => KindToken(Perft)
    case "fastperft" => KindToken(FastPerft)
    case "split" => KindToken(SplitPerft)
    case "p1time" => OptionToken(P1Time)
    case "p2time" => OptionToken(P2Time)
    case "p1inc" => OptionToken(P1Inc)
    case "p2inc" => OptionToken(P2Inc)
    case "depth" => OptionToken(Depth)
    case "nodes" => OptionToken(Nodes)
    case "movetime" => OptionToken(MoveTime)
    case "movestogo" => OptionToken(MovesToGo)
    case _ => OtherToken
  }

  /** Times and increments may be 0; every other option must be at least 1. */
  function Least(o: Opt): int
  {
    if o in {P1Time, P2Time, P1Inc, P2Inc} then 0 else 1
  }

  function Get(s: GoSettings, o: Opt): Option<int>
  {
    match o
    case P1Time => s.p1time
    case P2Time => s.p2time
    case P1Inc => s.p1inc
    case P2Inc => s.p2inc
    case Depth => s.depth
    case Nodes => if s.nodes.Some? then Some(s.nodes.value) else None
    case MoveTime => s.movetime
    case MovesToGo => s.movestogo
  }

  /** Set one option; `nodes` values are never negative. */
  function Set(s: GoSettings, o: Opt, v: int): (r: GoSettings)
    requires o == Nodes ==> v >= 0
    ensures Get(r, o) == Some(v)
    ensures forall o' :: o' != o ==> Get(r, o') == Get(s, o')
    ensures r.kind == s.kind
  {
    match o
    case P1Time => s.(p1time := Some(v))
    case P2Time => s.(p2time := Some(v))
    case P1Inc => s.(p1inc := Some(v))
    case P2Inc => s.(p2inc := Some(v))
    case Depth => s.(depth := Some(v))
    case Nodes => s.(nodes := Some(v))
    case MoveTime => s.(movetime := Some(v))
    case MovesToGo => s.(movestogo := Some(v))
  }

  /** How a value is read: `parse::<u64>` for `nodes`, `parse::<i32>` for the rest. */
  function ParseValue(o: Opt, w: string): (r: Option<int>)
    ensures o == Nodes && r.Some? ==> 0 <= r.value <= U64_MAX
    ensures o != Nodes && r.Some? ==> I32_MIN <= r.value <= I32_MAX
  {
    if o == Nodes then
      match ParseU64(w)
      case Some(n) => Some(n)
      case None => None
    else ParseI32(w)
  }

  /**
   * The word at index `i`: the settings after it and the index of the next unread word, or
   * the error that ends the parse. A kind word other than "search" also takes an immediately
   * following integer as the depth; an option takes the next word as its value; any other
   * word is skipped.
   */
  function Step(words: seq<string>, i: nat, s: GoSettings): (r: Result<(GoSettings, nat)>)
    requires i < |words|
    ensures r.Ok? ==> i < r.value.1 <= |words|
  {
    var w := words[i];
    match Classify(w)
    case KindToken(kind) =>
      var s' := s.(kind := kind);
      if kind != Search && i + 1 < |words| && ParseI32(words[i + 1]).Some? then
        Ok((s'.(depth := Some(ParseI32(words[i + 1]).value)), i + 2))
      else Ok((s', i + 1))
    case OtherToken => Ok((s, i + 1))
    case OptionToken(o) =>
      if i + 1 >= |words| then Err(Failure)
      else match ParseValue(o, words[i + 1])
        case None => Err(Failure)
        case Some(v) =>
          if v < Least(o) then Err(Failure)
          else if Get(s, o).Some? then Err(Failure)
          else Ok((Set(s, o, v), i + 2))
  }

  /** At least one of the options that bound a search must be given. */
  predicate HasLimit(s: GoSettings)
  {
    s.p1time.Some? || s.p2time.Some? || s.depth.Some? || s.nodes.Some? || s.movetime.Some?
  }

  function ParseFrom(words: seq<string>, i: nat, s: GoSettings): Result<GoSettings>
    requires i <= |words|
    decreases |words| - i
  {
    if i == |words| then
      if HasLimit(s) then Ok(s) else Err(Failure)
    else
      match Step(words, i, s)
      case Err(e) => Err(e)
      case Ok((s', j)) => ParseFrom(words, j, s')
  }

  /** One step of the parse: an error ends it, otherwise it goes on from the next unread word. */
  lemma ParseFromStep(words: seq<string>, i: nat, s: GoSettings)
    requires i < |words|
    ensures ParseFrom(words, i, s) == match Step(words, i, s)
      case Err(e) => Err(e)
      case Ok((s', j)) => ParseFrom(words, j, s')
  {
  }

  /** What `parse` returns for the words of a `go` command (after the word "go"). */
  function ParseGo(words: seq<string>): Result<GoSettings>
  {
    ParseFrom(words, 0, DefaultSettings)
  }

  /** `parse`: consumes the words one option at a time into `settings`. */
  method Parse(words: seq<string>) returns (r: Result<GoSettings>)
    ensures r == ParseGo(words)
  {
    var settings := DefaultSettings;
    var i := 0;
    while i < |words|
      invariant i <= |words|
      invariant ParseFrom(words, i, settings) == ParseGo(words)
      decreases |words| - i
    {
      ParseFromStep(words, i, settings);
      var w := words[i];
      i := i + 1;
      var token := Classify(w);
      if token.KindToken? {
        settings := settings.(kind := token.kind);
        if token.kind != Search && i < |words| {
          var d := ParseI32(words[i]);
          if d.Some? {
            settings := settings.(depth := Some(d.value));
            i := i + 1;
          }
        }
      } else if token.OptionToken? {
        if i >= |words| {
          return Err(Failure);
        }
        var v := ParseValue(token.opt, words[i]);
        i := i + 1;
        if v.None? || v.value < Least(token.opt) || Get(settings, token.opt).Some? {
          return Err(Failure);
        }
        settings := Set(settings, token.opt, v.value);
      }
    }
    if !HasLimit(settings) {
      return Err(Failure);
    }
    return Ok(settings);
  }

  /** Values the parser stores are within their options' ranges (`depth` after a kind word is any `i32`). */
  ghost predicate InRange(s: GoSettings)
  {
    forall o :: o != Depth && Get(s, o).Some? ==> Get(s, o).value >= Least(o)
  }

  lemma {:induction false} ParseFromInRange(words: seq<string>, i: nat, s: GoSettings)
    requires i <= |words| && InRange(s)
    ensures ParseFrom(words, i, s).Ok? ==> HasLimit(ParseFrom(words, i, s).value) && InRange(ParseFrom(words, i, s).value)
    decreases |words| - i
  {
    if i < |words| {
      match Step(words, i, s)
      case Err(_) =>
      case Ok((s', j)) =>
        assert InRange(s');
        ParseFromInRange(words, j, s');
    }
  }

  /** `parse` accepts only settings that bound the search and hold in-range values. */
  lemma ParseWellFormed(words: seq<string>)
    ensures ParseGo(words).Ok? ==> HasLimit(ParseGo(words).value) && InRange(ParseGo(words).value)
  {
    ParseFromInRange(words, 0, DefaultSettings);
  }

  /** The value following option `o` at index `i` is missing, unparsable or below the least value. */
  predicate BadValue(words: seq<string>, i: nat, o: Opt)
    requires i < |words|
  {
    i + 1 >= |words|
    || ParseValue(o, words[i + 1]).None?
    || ParseValue(o, words[i + 1]).value < Least(o)
  }

  /** A word that names an option or a kind is not an integer, so nothing consumes it as a value. */
  lemma KeywordIsNotNumber(w: string)
    requires !Classify(w).OtherToken?
    ensures ParseI32(w).None? && ParseU64(w).None?
  {
    assert !IsDigit(w[0]) && w[0] != '+' && w[0] != '-';
  }

  /** Every option is known by its printed name. */
  lemma OptionNamed(o: Opt)
    ensures Classify(OptName(o)) == OptionToken(o)
  {
  }

  /** A step from before a keyword stops at or before it: no option or kind word is read as a value. */
  lemma StepStopsAtKeyword(words: seq<string>, j: nat, i: nat, s: GoSettings)
    requires j < i < |words| && !Classify(words[i]).OtherToken?
    ensures Step(words, j, s).Ok? ==> Step(words, j, s).value.1 <= i
  {
    if j + 1 == i {
      KeywordIsNotNumber(words[i]);
    }
  }

  /** An option whose value is bad stops the parse at once. */
  lemma BadValueStep(words: seq<string>, i: nat, s: GoSettings)
    requires i < |words| && Classify(words[i]).OptionToken? && BadValue(words, i, Classify(words[i]).opt)
    ensures Step(words, i, s).Err?
  {
  }

  /** Parsing from any point at or before an option with a bad value fails. */
  lemma {:induction false} BadValueFrom(words: seq<string>, j: nat, i: nat, s: GoSettings)
    requires j <= i < |words| && Classify(words[i]).OptionToken? && BadValue(words, i, Classify(words[i]).opt)
    ensures ParseFrom(words, j, s).Err?
    decreases i - j
  {
    var r := Step(words, j, s);
    if j == i {
      BadValueStep(words, i, s);
    } else if r.Ok? {
      StepStopsAtKeyword(words, j, i, s);
      BadValueFrom(words, r.value.1, i, r.value.0);
    }
  }

  /**
   * A missing or unparsable value, a negative time or increment, and a depth, node count,
   * movetime or movestogo below 1 each make `parse` fail.
   */
  lemma BadValueRejected(words: seq<string>, i: nat)
    requires i < |words| && Classify(words[i]).OptionToken? && BadValue(words, i, Classify(words[i]).opt)
    ensures ParseGo(words).Err?
  {
    BadValueFrom(words, 0, i, DefaultSettings);
  }

  /** An option that already has a value stops the parse at once. */
  lemma RepeatStep(words: seq<string>, i: nat, s: GoSettings, o: Opt)
    requires i < |words| && Classify(words[i]) == OptionToken(o) && Get(s, o).Some?
    ensures Step(words, i, s).Err?
  {
  }

  /** A step keeps every option that has a value. */
  lemma StepKeeps(words: seq<string>, j: nat, s: GoSettings, o: Opt)
    requires j < |words| && Get(s, o).Some?
    ensures Step(words, j, s).Ok? ==> Get(Step(words, j, s).value.0, o).Some?
  {
  }

  /** A step that reads option `o` gives it a value. */
  lemma StepSets(words: seq<string>, i: nat, s: GoSettings, o: Opt)
    requires i < |words| && Classify(words[i]) == OptionToken(o)
    ensures Step(words, i, s).Ok? ==> Get(Step(words, i, s).value.0, o).Some?
  {
  }

  /** Once option `o` has a value, giving it again at `i`, reached from `j`, fails. */
  lemma {:induction false} RepeatFrom(words: seq<string>, j: nat, i: nat, s: GoSettings, o: Opt)
    requires j <= i < |words| && Classify(words[i]) == OptionToken(o) && Get(s, o).Some?
    ensures ParseFrom(words, j, s).Err?
    decreases i - j
  {
    var r := Step(words, j, s);
    if j == i {
      RepeatStep(words, i, s, o);
    } else if r.Ok? {
      StepStopsAtKeyword(words, j, i, s);
      StepKeeps(words, j, s, o);
      RepeatFrom(words, r.value.1, i, r.value.0, o);
    }
  }

  lemma {:induction false} RepeatBeforeFirst(words: seq<string>, j: nat, i: nat, i': nat, s: GoSettings, o: Opt)
    requires j <= i < i' < |words| && Classify(words[i]) == OptionToken(o) && Classify(words[i']) == OptionToken(o)
    ensures ParseFrom(words, j, s).Err?
    decreases i - j
  {
    var r := Step(words, j, s);
    if r.Ok? {
      if j == i {
        StepSets(words, i, s, o);
        StepStopsAtKeyword(words, i, i', s);
        RepeatFrom(words, r.value.1, i', r.value.0, o);
      } else {
        StepStopsAtKeyword(words, j, i, s);
        RepeatBeforeFirst(words, r.value.1, i, i', r.value.0, o);
      }
    }
  }

  /** An option given twice makes `parse` fail. */
  lemma RepeatRejected(words: seq<string>, i: nat, i': nat)
    requires i < i' < |words| && Classify(words[i]).OptionToken? && words[i'] == words[i]
    ensures ParseGo(words).Err?
  {
    RepeatBeforeFirst(words, 0, i, i', DefaultSettings, Classify(words[i]).opt);
  }

  /** Reading from one word further into a longer list gives the same step, shifted by one. */
  lemma StepShift(w: string, words: seq<string>, i: nat, s: GoSettings)
    requires i < |words|
    ensures var r := Step([w] + words, i + 1, s);
      r.Ok? == Step(words, i, s).Ok?
      && (r.Ok? ==> r.value == (Step(words, i, s).value.0, Step(words, i, s).value.1 + 1))
  {
    var ws := [w] + words;
    assert ws[i + 1] == words[i];
    if i + 1 < |words| {
      assert ws[i + 2] == words[i + 1];
    }
  }

  /** A leading word that is not an option is skipped. */
  lemma {:induction false} UnknownWordIgnoredFrom(w: string, words: seq<string>, i: nat, s: GoSettings)
    requires i <= |words|
    ensures ParseFrom([w] + words, i + 1, s) == ParseFrom(words, i, s)
    decreases |words| - i
  {
    if i < |words| {
      StepShift(w, words, i, s);
      match Step(words, i, s)
      case Err(_) =>
      case Ok((s', j)) =>
        UnknownWordIgnoredFrom(w, words, j, s');
    }
  }

  lemma UnknownWordIgnored(w: string, words: seq<string>)
    requires Classify(w) == OtherToken
    ensures ParseGo([w] + words) == ParseGo(words)
  {
    UnknownWordIgnoredFrom(w, words, 0, DefaultSettings);
  }

  /**
   * "perft", "fastperft" and "split" take an immediately following integer as the depth (and
   * that word is then read); "search" never does.
   */
  lemma KindTakesDepth(k: GoKind, w: string, rest: seq<string>)
    requires k != Search && ParseI32(w).Some?
    ensures ParseGo([KindWord(k), w] + rest)
      == ParseFrom([KindWord(k), w] + rest, 2, DefaultSettings.(kind := k, depth := Some(ParseI32(w).value)))
  {
    ParseFromStep([KindWord(k), w] + rest, 0, DefaultSettings);
  }

  /** `show_or`: the value, or "None". */
  function ShowOr(v: Option<int>): (w: string)
    ensures IsWord(w)
  {
    match v
    case Some(n) => IntToString(n)
    case None => "None"
  }

  function KindWord(k: GoKind): (w: string)
    ensures Classify(w) == KindToken(k)
  {
    match k
    case Search => "search"
    case Perft => "perft"
    case FastPerft => "fastperft"
    case SplitPerft => "split"
  }

  /** The words `to_ugi_string` prints, in order: "go", the kind, then every option and its value. */
  function UgiWords(s: GoSettings): seq<string>
  {
    ["go", KindWord(s.kind)] + OptionWords(s, 0)
  }

  /** The options from the `k`-th on, each name followed by its value or "None". */
  function OptionWords(s: GoSettings, k: nat): seq<string>
    requires k <= 8
    decreases 8 - k
  {
    if k == 8 then [] else [OptName(Order(k)), ShowOr(Get(s, Order(k)))] + OptionWords(s, k + 1)
  }

  /** `to_ugi_string`: the words separated by single spaces. */
  function ToUgiString(s: GoSettings): string
  {
    JoinWords(UgiWords(s))
  }

  /** Every option set, within its type's range and the parser's bounds. */
  ghost predicate Complete(s: GoSettings)
  {
    forall o :: Get(s, o).Some? && Least(o) <= Get(s, o).value
      && (if o == Nodes then Get(s, o).value <= U64_MAX else Get(s, o).value <= I32_MAX)
  }

  lemma ParseShown(o: Opt, v: int)
    requires Least(o) <= v
    requires if o == Nodes then v <= U64_MAX else v <= I32_MAX
    ensures ParseValue(o, ShowOr(Some(v))) == Some(v)
  {
    if o == Nodes {
      ParseUnsignedDisplay(v, U64_MAX);
    } else {
      ParseSignedDisplay(v, I32_MIN, I32_MAX);
    }
  }

  /** An unset option followed by its printed value is read into the settings. */
  lemma OptionStep(ws: seq<string>, i: nat, cur: GoSettings, o: Opt, v: int)
    requires i + 1 < |ws| && ws[i] == OptName(o) && Get(cur, o).None?
    requires Least(o) <= v
    requires if o == Nodes then v <= U64_MAX else v <= I32_MAX
    requires ws[i + 1] == ShowOr(Some(v))
    ensures ParseFrom(ws, i, cur) == ParseFrom(ws, i + 2, Set(cur, o, v))
  {
    ParseShown(o, v);
    OptionNamed(o);
  }

  /** The order in which `to_ugi_string` prints the options. */
  function Order(k: nat): Opt
    requires k < 8
  {
    [P1Time, P2Time, P1Inc, P2Inc, Depth, Nodes, MoveTime, MovesToGo][k]
  }

  function Position(o: Opt): (k: nat)
    ensures k < 8 && Order(k) == o
  {
    match o
    case P1Time => 0
    case P2Time => 1
    case P1Inc => 2
    case P2Inc => 3
    case Depth => 4
    case Nodes => 5
    case MoveTime => 6
    case MovesToGo => 7
  }

  /** Settings holding exactly the options before position `k`. */
  ghost predicate HoldsFirst(cur: GoSettings, s: GoSettings, k: nat)
  {
    cur.kind == s.kind && forall o :: Get(cur, o) == if Position(o) < k then Get(s, o) else None
  }

  lemma HoldsNext(cur: GoSettings, s: GoSettings, k: nat)
    requires k < 8 && HoldsFirst(cur, s, k) && Complete(s)
    ensures HoldsFirst(Set(cur, Order(k), Get(s, Order(k)).value), s, k + 1)
  {
  }

  lemma HoldsAll(cur: GoSettings, s: GoSettings)
    requires HoldsFirst(cur, s, 8)
    ensures cur == s
  {
    assert Get(cur, P1Time) == Get(s, P1Time) && Get(cur, P2Time) == Get(s, P2Time);
    assert Get(cur, P1Inc) == Get(s, P1Inc) && Get(cur, P2Inc) == Get(s, P2Inc);
    assert Get(cur, Depth) == Get(s, Depth) && Get(cur, Nodes) == Get(s, Nodes);
    assert Get(cur, MoveTime) == Get(s, MoveTime) && Get(cur, MovesToGo) == Get(s, MovesToGo);
  }

  /** The option words from the `k`-th on, read into settings that have exactly the earlier ones. */
  lemma {:induction false} ParseOptionWords(ws: seq<string>, i: nat, s: GoSettings, k: nat, cur: GoSettings)
    requires Complete(s) && k <= 8 && i <= |ws|
    requires ws[i..] == OptionWords(s, k)
    requires HoldsFirst(cur, s, k)
    ensures ParseFrom(ws, i, cur) == Ok(s)
    decreases 8 - k
  {
    if k == 8 {
      HoldsAll(cur, s);
      assert Get(s, P1Time).Some?;
    } else {
      var o := Order(k);
      var v := Get(s, o).value;
      assert ws[i] == ws[i..][0] && ws[i + 1] == ws[i..][1];
      assert ws[i + 2..] == ws[i..][2..];
      OptionStep(ws, i, cur, o, v);
      HoldsNext(cur, s, k);
      ParseOptionWords(ws, i + 2, s, k + 1, Set(cur, o, v));
    }
  }

  /** Reading back the words of `to_ugi_string` gives the settings again, when every option is set. */
  lemma ParseUgiWords(s: GoSettings)
    requires Complete(s)
    ensures ParseGo(UgiWords(s)[1..]) == Ok(s)
  {
    var ws := UgiWords(s)[1..];
    OptionNamed(P1Time);
    KeywordIsNotNumber("p1time");
    var s0 := DefaultSettings.(kind := s.kind);
    assert HoldsFirst(s0, s, 0);
    assert ws[1..] == OptionWords(s, 0);
    assert ws[1] == "p1time";
    assert Step(ws, 0, DefaultSettings) == Ok((s0, 1));
    ParseOptionWords(ws, 1, s, 0, s0);
  }

  /** Every word `to_ugi_string` prints is a word the splitter yields whole. */
  lemma OptionWordsAreWords(s: GoSettings, k: nat)
    requires k <= 8
    ensures forall i :: 0 <= i < |OptionWords(s, k)| ==> IsWord(OptionWords(s, k)[i])
    ensures |OptionWords(s, k)| == 2 * (8 - k)
    decreases 8 - k
  {
    if k < 8 {
      OptionWordsAreWords(s, k + 1);
    }
  }

  lemma UgiWordsAreWords(s: GoSettings)
    ensures |UgiWords(s)| == 18
    ensures forall i :: 0 <= i < |UgiWords(s)| ==> IsWord(UgiWords(s)[i])
  {
    var ws := UgiWords(s);
    OptionWordsAreWords(s, 0);
    assert forall i :: 2 <= i < |ws| ==> ws[i] == OptionWords(s, 0)[i - 2];
  }

  /** The printed command, split into words, parses back to the same settings. */
  lemma ToUgiStringRoundTrip(s: GoSettings)
    requires Complete(s)
    ensures |SplitWords(ToUgiString(s))| == 18
    ensures ParseGo(SplitWords(ToUgiString(s))[1..]) == Ok(s)
  {
    UgiWordsAreWords(s);
    SplitJoin(UgiWords(s));
    ParseUgiWords(s);
  }
}
