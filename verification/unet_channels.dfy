/** The configuration half of `UNet.__init__`: the per-level channel
    schedule parsed from an int, a string such as `"32_doublemax-256"` or an
    explicit list, and the wiring of the blocks built from it. Only channel
    counts are modelled; the layers themselves are left to torch. */
module UNetChannels {
  import opened Common
  import opened Decimal

  // ---------------------------------------------------------------------
  // Python string helpers

  /** The position of the first `sep` in `s`. */
  function FirstIndex(s: string, sep: char): (k: nat)
    requires sep in s
    ensures k < |s| && s[k] == sep && sep !in s[..k]
  {
    if s[0] == sep then 0
    else
      assert sep in s[1..] by {
        var i :| 0 <= i < |s| && s[i] == sep;
        assert s[1..][i - 1] == sep;
      }
      var k := 1 + FirstIndex(s[1..], sep);
      assert s[..k] == [s[0]] + s[1..][..k - 1];
      k
  }

  /** `s.split(sep)` for a one-character separator: the pieces between the
      separators, in order; always at least one piece. */
  function Split(s: string, sep: char): (parts: seq<string>)
    decreases |s|
    ensures |parts| >= 1
    ensures forall i :: 0 <= i < |parts| ==> sep !in parts[i]
  {
    if sep !in s then [s]
    else
      var k := FirstIndex(s, sep);
      [s[..k]] + Split(s[k + 1..], sep)
  }

  /** Joining the pieces with the separator gives back the string. */
  lemma {:induction false} JoinSplit(s: string, sep: char)
    decreases |s|
    ensures Join(Split(s, sep), sep) == s
  {
    if sep in s {
      var k := FirstIndex(s, sep);
      var rest := Split(s[k + 1..], sep);
      JoinSplit(s[k + 1..], sep);
      JoinCons(s[..k], rest, sep);
      assert s == s[..k] + [sep] + s[k + 1..];
    }
  }

  /** Splitting a join of separator-free pieces gives back the pieces. */
  lemma {:induction false} SplitJoin(parts: seq<string>, sep: char)
    requires |parts| >= 1
    requires forall i :: 0 <= i < |parts| ==> sep !in parts[i]
    ensures Split(Join(parts, sep), sep) == parts
  {
    if |parts| > 1 {
      var rest := parts[1..];
      assert sep !in parts[0];
      JoinCons(parts[0], rest, sep);
      assert [parts[0]] + rest == parts;
      SplitCons(parts[0], Join(rest, sep), sep);
      SplitJoin(rest, sep);
    } else {
      assert sep !in Join(parts, sep);
    }
  }

  /** The first separator after a separator-free piece ends that piece. */
  lemma SplitCons(p: string, r: string, sep: char)
    requires sep !in p
    ensures Split(p + [sep] + r, sep) == [p] + Split(r, sep)
  {
    var s := p + [sep] + r;
    assert s[|p|] == sep;
    assert s[..|p|] == p;
    var k := FirstIndex(s, sep);
    if k < |p| {
      assert false;
    } else if k > |p| {
      assert false;
    } else {
      assert s[k + 1..] == r;
    }
  }

  /** The characters `str.strip()` removes (Unicode whitespace). */
  predicate IsPyWhitespace(c: char) {
    c == ' ' || '\t' <= c <= '\r' || '\U{1C}' <= c <= '\U{1F}' || c == '\U{85}' || c == '\U{A0}'
    || c == '\U{1680}' || '\U{2000}' <= c <= '\U{200A}' || c == '\U{2028}' || c == '\U{2029}'
    || c == '\U{202F}' || c == '\U{205F}' || c == '\U{3000}'
  }

  function StripStart(s: string): (t: string)
    ensures |t| <= |s| && t == s[|s| - |t|..]
    ensures |t| > 0 ==> !IsPyWhitespace(t[0])
  {
    if |s| > 0 && IsPyWhitespace(s[0]) then StripStart(s[1..]) else s
  }

  function StripEnd(s: string): (t: string)
    ensures |t| <= |s| && t == s[..|t|]
    ensures |t| > 0 ==> !IsPyWhitespace(t[|t| - 1])
  {
    if |s| > 0 && IsPyWhitespace(s[|s| - 1]) then StripEnd(s[..|s| - 1]) else s
  }

  /** `s.strip()`. */
  function Strip(s: string): string
  {
    StripEnd(StripStart(s))
  }

  /** `int(s)` in base 10: surrounding whitespace, an optional sign, then at
      least one decimal digit and nothing else. */
  function PyInt(s: string): (r: Result<int, PyError>)
    ensures r.Err? ==> r.error == ValueError
  {
    PyIntStripped(Strip(s))
  }

  /** `int` on a string without surrounding whitespace. */
  function PyIntStripped(t: string): (r: Result<int, PyError>)
    ensures r.Err? ==> r.error == ValueError
  {
    var negative := |t| > 0 && t[0] == '-';
    var digits := if |t| > 0 && (t[0] == '-' || t[0] == '+') then t[1..] else t;
    if |digits| == 0 || !AllDigits(digits) then Err(ValueError)
    else if negative then Ok(-(ValueOf(digits) as int))
    else Ok(ValueOf(digits))
  }

  /** `strip` leaves a string alone whose ends are not whitespace. */
  lemma StripNothing(t: string)
    requires |t| > 0 && !IsPyWhitespace(t[0]) && !IsPyWhitespace(t[|t| - 1])
    ensures Strip(t) == t
  {
  }

  /** `strip` keeps a contiguous part of its input. */
  lemma StripIsSlice(s: string)
    ensures var off := |s| - |StripStart(s)|;
            off + |Strip(s)| <= |s| && Strip(s) == s[off..off + |Strip(s)|]
  {
  }

  /** A rendered number is read back by `int`, with or without a minus. */
  lemma PyIntRender(n: nat)
    ensures PyInt(Render(n)) == Ok(n)
    ensures PyInt("-" + Render(n)) == Ok(-(n as int))
  {
    ValueOfRender(n);
    PyIntRenderUnsigned(Render(n));
    PyIntRenderSigned(Render(n));
  }

  lemma PyIntRenderUnsigned(s: string)
    requires |s| > 0 && AllDigits(s)
    ensures PyInt(s) == Ok(ValueOf(s))
  {
    assert IsDigit(s[0]) && IsDigit(s[|s| - 1]);
    StripNothing(s);
    PyIntDigits(s);
  }

  lemma PyIntRenderSigned(s: string)
    requires |s| > 0 && AllDigits(s)
    ensures PyInt("-" + s) == Ok(-(ValueOf(s) as int))
  {
    var m := "-" + s;
    assert IsDigit(s[|s| - 1]);
    assert m[|m| - 1] == s[|s| - 1];
    StripNothing(m);
    PyIntNegativeDigits(s);
  }

  /** A run of digits reads as its value. */
  lemma PyIntDigits(s: string)
    requires |s| > 0 && AllDigits(s)
    ensures PyIntStripped(s) == Ok(ValueOf(s))
  {
    assert IsDigit(s[0]);
  }

  /** A minus sign and a run of digits read as the negated value. */
  lemma PyIntNegativeDigits(s: string)
    requires |s| > 0 && AllDigits(s)
    ensures PyIntStripped("-" + s) == Ok(-(ValueOf(s) as int))
  {
    assert ("-" + s)[1..] == s;
  }

  /** A string with no digit is not a number. */
  lemma PyIntNoDigits(s: string)
    requires forall i :: 0 <= i < |s| ==> !IsDigit(s[i])
    ensures PyInt(s) == Err(ValueError)
  {
    var t := Strip(s);
    StripIsSlice(s);
    var off := |s| - |StripStart(s)|;
    if |t| > 0 {
      assert t[0] == s[off];
      if |t| > 1 {
        assert t[1] == s[off + 1];
      }
    }
  }

  // ---------------------------------------------------------------------
  // Channel schedules

  /** `[c * 2 ** i for i in range(depth + 1)]`. */
  function Doubling(c: int, depth: nat): (r: seq<int>)
    ensures |r| == depth + 1
    ensures r[0] == c
    ensures forall i :: 0 < i <= depth ==> r[i] == 2 * r[i - 1]
  {
    seq(depth + 1, i requires 0 <= i => c * Pow2(i))
  }

  /** `[c] * (depth + 1)`. */
  function Constant(c: int, depth: nat): (r: seq<int>)
    ensures |r| == depth + 1
    ensures r[0] == c
    ensures forall i :: 0 < i <= depth ==> r[i] == r[i - 1]
  {
    seq(depth + 1, _ => c)
  }

  /** `[min(c * 2 ** i, m) for i in range(depth + 1)]`. */
  function Capped(c: int, m: int, depth: nat): (r: seq<int>)
    ensures |r| == depth + 1
    ensures forall i :: 0 <= i <= depth ==> r[i] <= m && r[i] <= Doubling(c, depth)[i]
    ensures forall i :: 0 <= i <= depth ==> r[i] == m || r[i] == Doubling(c, depth)[i]
  {
    seq(depth + 1, i requires 0 <= i => Min(c * Pow2(i), m))
  }

  /** How `channels` was passed to the constructor. */
  datatype ChannelsArg = IntArg(c: int) | StrArg(s: string) | ListArg(l: seq<int>)

  /** The string forms `"<c>_double"`, `"<c>_same"` and
      `"<c>_doublemax-<m>"`. The initial count is read before the strategy is
      looked at, so a bad count is a `ValueError` whatever follows. */
  function ParseSchedule(s: string, depth: nat): (r: Result<seq<int>, PyError>)
    ensures r.Ok? ==> |r.value| == depth + 1
    ensures |Split(s, '_')| != 2 ==> r == Err(ValueError)
    ensures r.Err? ==> r.error == ValueError || r.error == IndexError
  {
    var parts := Split(s, '_');
    if |parts| != 2 then Err(ValueError)
    else
      match PyInt(parts[0])
      case Err(e) => Err(e)
      case Ok(c) => Strategy(c, parts[1], depth)
  }

  /** The schedule a strategy name selects for the initial count `c`. */
  function Strategy(c: int, strategy: string, depth: nat): (r: Result<seq<int>, PyError>)
    ensures r.Ok? ==> |r.value| == depth + 1
    ensures r.Err? ==> r.error == ValueError || r.error == IndexError
    ensures r.Ok? <==>
              || strategy == "double" || strategy == "same"
              || (StartsWith(strategy, "doublemax") && |Split(strategy, '-')| >= 2 && PyInt(Split(strategy, '-')[1]).Ok?)
    ensures r == Err(IndexError) <==> StartsWith(strategy, "doublemax") && |Split(strategy, '-')| < 2
  {
    if strategy == "double" then Ok(Doubling(c, depth))
    else if strategy == "same" then Ok(Constant(c, depth))
    else if StartsWith(strategy, "doublemax") then
      var pieces := Split(strategy, '-');
      if |pieces| < 2 then Err(IndexError)
      else
        match PyInt(pieces[1])
        case Err(e) => Err(e)
        case Ok(m) => Ok(Capped(c, m, depth))
    else Err(ValueError)
  }

  /** The channel list `UNet.__init__` settles on. */
  function Channels(arg: ChannelsArg, depth: nat): (r: Result<seq<int>, PyError>)
    ensures r.Ok? ==> |r.value| == depth + 1
    ensures arg.IntArg? ==> r == Ok(Doubling(arg.c, depth))
    ensures arg.ListArg? ==> (r.Ok? <==> |arg.l| == depth + 1) && (r.Ok? ==> r.value == arg.l)
    ensures arg.ListArg? && r.Err? ==> r.error == AssertionError
  {
    match arg
    case IntArg(c) => Ok(Doubling(c, depth))
    case StrArg(s) => ParseSchedule(s, depth)
    case ListArg(l) => if |l| == depth + 1 then Ok(l) else Err(AssertionError)
  }

  /** Each level of the doubling schedule has twice the channels of the one
      before it, starting from the initial count. */
  lemma DoublingRecurrence(c: int, depth: nat)
    ensures Doubling(c, depth)[0] == c
    ensures forall i :: 0 <= i < depth ==> Doubling(c, depth)[i + 1] == 2 * Doubling(c, depth)[i]
  {
  }

  /** Powers of two grow with the exponent. */
  lemma {:induction false} Pow2Monotone(i: nat, j: nat)
    requires i <= j
    ensures Pow2(i) <= Pow2(j)
  {
    if i < j {
      Pow2Monotone(i, j - 1);
    }
  }

  /** The capped schedule never exceeds the cap, never decreases when the
      initial count is non-negative, and agrees with doubling wherever
      doubling stays within the cap. */
  lemma CappedShape(c: int, m: int, depth: nat)
    ensures forall i :: 0 <= i <= depth ==> Capped(c, m, depth)[i] <= m
    ensures forall i :: 0 <= i <= depth && Doubling(c, depth)[i] <= m ==>
              Capped(c, m, depth)[i] == Doubling(c, depth)[i]
    ensures c >= 0 ==> forall i, j :: 0 <= i <= j <= depth ==> Capped(c, m, depth)[i] <= Capped(c, m, depth)[j]
  {
    if c >= 0 {
      forall i, j | 0 <= i <= j <= depth
        ensures Capped(c, m, depth)[i] <= Capped(c, m, depth)[j]
      {
        Pow2Monotone(i, j);
        MulMonotone(c, Pow2(i), Pow2(j));
      }
    }
  }

  /** The three string forms read back as the schedules they name. */
  lemma RenderedSchedules(c: nat, m: nat, depth: nat)
    ensures Channels(StrArg(Render(c) + "_double"), depth) == Ok(Doubling(c, depth))
    ensures Channels(StrArg(Render(c) + "_same"), depth) == Ok(Constant(c, depth))
    ensures Channels(StrArg(Render(c) + "_doublemax-" + Render(m)), depth) == Ok(Capped(c, m, depth))
  {
    PlainSpelling(Render(c));
    RenderedPlain(c, "double", depth);
    RenderedPlain(c, "same", depth);
    RenderedDoublemax(c, m, depth);
  }

  lemma PlainSpelling(a: string)
    ensures a + "_double" == a + "_" + "double" && a + "_same" == a + "_" + "same"
  {
    assert "_double" == "_" + "double";
    assert "_same" == "_" + "same";
  }

  lemma RenderedPlain(c: nat, strategy: string, depth: nat)
    requires strategy == "double" || strategy == "same"
    ensures ParseSchedule(Render(c) + "_" + strategy, depth)
              == Ok(if strategy == "double" then Doubling(c, depth) else Constant(c, depth))
  {
    RenderedStrategy(c, strategy, depth);
  }

  /** A rendered count and an underscore-free strategy reach the strategy
      with that count. */
  lemma RenderedStrategy(c: nat, strategy: string, depth: nat)
    requires '_' !in strategy
    ensures ParseSchedule(Render(c) + "_" + strategy, depth) == Strategy(c, strategy, depth)
  {
    PyIntRender(c);
    RenderedSplit(Render(c), strategy);
  }

  lemma RenderedDoublemax(c: nat, m: nat, depth: nat)
    ensures ParseSchedule(Render(c) + "_doublemax-" + Render(m), depth) == Ok(Capped(c, m, depth))
  {
    var strategy := "doublemax-" + Render(m);
    DoublemaxStrategy(m);
    PyIntRender(m);
    RenderedStrategy(c, strategy, depth);
    DoublemaxSpelling(Render(c), Render(m));
  }

  lemma DoublemaxSpelling(a: string, b: string)
    ensures a + "_doublemax-" + b == a + "_" + ("doublemax-" + b)
  {
    assert "_doublemax-" == "_" + "doublemax-";
  }

  /** `"doublemax-<m>"` has no underscore, is neither of the two plain
      strategies, and splits at its dash into the name and the cap. */
  lemma DoublemaxStrategy(m: nat)
    ensures var strategy := "doublemax-" + Render(m);
            && '_' !in strategy && StartsWith(strategy, "doublemax")
            && strategy != "double" && strategy != "same"
            && Split(strategy, '-') == ["doublemax", Render(m)]
  {
    var strategy := "doublemax-" + Render(m);
    NoSeparatorInDigits(Render(m), '_');
    NoSeparatorInDigits(Render(m), '-');
    assert |strategy| > 9;
    assert strategy[..9] == "doublemax";
    assert strategy == Join(["doublemax", Render(m)], '-');
    SplitJoin(["doublemax", Render(m)], '-');
  }

  lemma NoSeparatorInDigits(s: string, sep: char)
    requires AllDigits(s) && !IsDigit(sep)
    ensures sep !in s
  {
  }

  /** `"<digits>_<strategy>"` splits into the two halves when the strategy
      has no underscore. */
  lemma RenderedSplit(digits: string, strategy: string)
    requires AllDigits(digits) && '_' !in strategy
    ensures Split(digits + "_" + strategy, '_') == [digits, strategy]
  {
    NoSeparatorInDigits(digits, '_');
    assert digits + "_" + strategy == Join([digits, strategy], '_');
    SplitJoin([digits, strategy], '_');
  }

  /** Any strategy other than the three is rejected with `ValueError`, and
      `doublemax` without a `-<m>` part with `IndexError`. */
  lemma RejectedSchedules(c: nat, strategy: string, depth: nat)
    requires '_' !in strategy
    ensures strategy != "double" && strategy != "same" && !StartsWith(strategy, "doublemax") ==>
              Channels(StrArg(Render(c) + "_" + strategy), depth) == Err(ValueError)
    ensures StartsWith(strategy, "doublemax") && '-' !in strategy ==>
              Channels(StrArg(Render(c) + "_" + strategy), depth) == Err(IndexError)
  {
    RenderedStrategy(c, strategy, depth);
  }

  /** A string without exactly one underscore cannot be unpacked into a
      count and a strategy. */
  lemma UnderscoreCount(s: string, depth: nat)
    ensures '_' !in s ==> Channels(StrArg(s), depth) == Err(ValueError)
    ensures Channels(StrArg("32_double_x"), depth) == Err(ValueError)
  {
    var t := "32_double_x";
    assert t == Join(["32", "double", "x"], '_');
    assert '_' !in "32" && '_' !in "double" && '_' !in "x";
    SplitJoin(["32", "double", "x"], '_');
  }

  // ---------------------------------------------------------------------
  // Blocks and their wiring

  /** A block with a fixed number of input and output channels: `in_conv`,
      a `DownBlock`, or `out_conv`. */
  datatype Conv = Conv(inCh: int, outCh: int)

  const UpTypes: set<string> := {"interpolate", "convtranspose", "conv_then_interpolate"}

  /** The channel counts of an `UpBlock`: `upCh` is the upsampled input's,
      `conv1In` what the first convolution of the concatenation takes. */
  datatype UpBlock = UpBlock(inCh: int, outCh: int, skipCh: int, upCh: int, conv1In: int, upType: string)

  /** `UpBlock(in_channels, out_channels, x_skip_channels=skip,
      up_type=upType)`. A missing or zero skip width falls back to half the
      input (Python's `or`), and an unknown `up_type` raises. */
  function NewUpBlock(inCh: int, outCh: int, skip: Option<int>, upType: string): (r: Result<UpBlock, PyError>)
    ensures r.Ok? <==> upType in UpTypes
    ensures r.Err? ==> r.error == ValueError
    ensures r.Ok? ==> && r.value.inCh == inCh && r.value.outCh == outCh && r.value.upType == upType
                      && 2 * r.value.upCh <= inCh <= 2 * r.value.upCh + 1
                      && (skip.Some? && skip.value != 0 ==> r.value.skipCh == skip.value)
                      && (skip.None? || skip.value == 0 ==> r.value.skipCh == r.value.upCh)
                      && r.value.conv1In == r.value.upCh + r.value.skipCh
  {
    var skipCh := if skip.Some? && skip.value != 0 then skip.value else inCh / 2;
    var conv1In := inCh / 2 + skipCh;
    if upType in UpTypes then Ok(UpBlock(inCh, outCh, skipCh, inCh / 2, conv1In, upType))
    else Err(ValueError)
  }

  /** The layers `UNet.__init__` builds, by channel count. */
  datatype Net = Net(channels: seq<int>, inConv: Conv, downs: seq<Conv>, ups: seq<UpBlock>, outConv: Conv,
                     dynamicPadding: bool)
  {
    function Depth(): nat { |downs| }
  }

  /** The up blocks for `d = depth - 1, ..., 0`, block `j` at level
      `depth - 1 - j`; the first unknown `up_type` raises. */
  function BuildUps(channels: seq<int>, upType: string, j: nat, depth: nat): (r: Result<seq<UpBlock>, PyError>)
    requires |channels| == depth + 1 && j <= depth
    decreases depth - j
    ensures r.Ok? ==> |r.value| == depth - j
    ensures r.Ok? ==> forall i :: 0 <= i < depth - j ==>
              NewUpBlock(channels[depth - j - i], channels[depth - j - i - 1], Some(channels[depth - j - i - 1]), upType)
                == Ok(r.value[i])
    ensures r.Err? <==> j < depth && upType !in UpTypes
  {
    if j == depth then Ok([])
    else
      var d := depth - 1 - j;
      match NewUpBlock(channels[d + 1], channels[d], Some(channels[d]), upType)
      case Err(e) => Err(e)
      case Ok(b) =>
        match BuildUps(channels, upType, j + 1, depth)
        case Err(e) => Err(e)
        case Ok(rest) => Ok([b] + rest)
  }

  /** The layers `UNet.__init__` builds from a settled channel list. */
  function BuildNet(inCh: int, outCh: int, channels: seq<int>, upType: string, dynamicPadding: bool)
    : (r: Result<Net, PyError>)
    requires |channels| >= 1
    ensures r.Err? <==> |channels| > 1 && upType !in UpTypes
    ensures r.Ok? ==> r.value.channels == channels && r.value.Depth() == |channels| - 1 && |r.value.ups| == |channels| - 1
  {
    var depth := |channels| - 1;
    var downs := seq(depth, d requires 0 <= d < depth => Conv(channels[d], channels[d + 1]));
    match BuildUps(channels, upType, 0, depth)
    case Err(e) => Err(e)
    case Ok(ups) => Ok(Net(channels, Conv(inCh, channels[0]), downs, ups, Conv(channels[0], outCh), dynamicPadding))
  }

  /** `UNet(in_channels, out_channels, depth, channels, up_type=upType,
      dynamic_padding=...)`, by channel count. */
  function NewUNet(inCh: int, outCh: int, depth: nat, arg: ChannelsArg, upType: string, dynamicPadding: bool)
    : (r: Result<Net, PyError>)
    ensures Channels(arg, depth).Err? ==> r == Err(Channels(arg, depth).error)
    ensures Channels(arg, depth).Ok? ==> r == BuildNet(inCh, outCh, Channels(arg, depth).value, upType, dynamicPadding)
    ensures Channels(arg, depth).Ok? ==> (r.Err? <==> depth > 0 && upType !in UpTypes)
    ensures r.Ok? ==> r.value.Depth() == depth && r.value.channels == Channels(arg, depth).value
  {
    match Channels(arg, depth)
    case Err(e) => Err(e)
    case Ok(channels) => BuildNet(inCh, outCh, channels, upType, dynamicPadding)
  }

  /** The channel counts chain: every block takes the channels its
      predecessor produces, and the skip tensor of level `d` has
      `channels[d]` channels. */
  predicate Chained(net: Net)
  {
    var depth := net.Depth();
    && |net.channels| == depth + 1 && |net.ups| == depth
    && net.inConv.outCh == net.channels[0]
    && (forall d :: 0 <= d < depth ==> net.downs[d].inCh == net.channels[d] && net.downs[d].outCh == net.channels[d + 1])
    && (forall j :: 0 <= j < depth ==> net.ups[j].inCh == net.channels[depth - j])
    && (forall j :: 0 <= j < depth ==> net.ups[j].outCh == net.channels[depth - 1 - j])
    && (forall j :: 0 <= j < depth ==> net.ups[j].conv1In == net.ups[j].upCh + net.ups[j].skipCh)
    && net.outConv.inCh == net.channels[0]
  }

  /** Up block `j` expects as many skip channels as level `depth - 1 - j`
      provides. */
  predicate SkipsMatch(net: Net)
    requires Chained(net)
  {
    forall j :: 0 <= j < net.Depth() ==> net.ups[j].skipCh == net.channels[net.Depth() - 1 - j]
  }

  /** Every network the constructor accepts is chained; its skip widths
      match exactly when no level of zero channels sits under a level of two
      or more (where `0 or in_channels // 2` replaces the zero). */
  lemma NewUNetWired(inCh: int, outCh: int, depth: nat, arg: ChannelsArg, upType: string, dynamicPadding: bool)
    requires NewUNet(inCh, outCh, depth, arg, upType, dynamicPadding).Ok?
    ensures Chained(NewUNet(inCh, outCh, depth, arg, upType, dynamicPadding).value)
    ensures var net := NewUNet(inCh, outCh, depth, arg, upType, dynamicPadding).value;
            SkipsMatch(net) <==> forall d :: 0 <= d < depth ==> net.channels[d] != 0 || net.channels[d + 1] / 2 == 0
  {
    BuildNetWired(inCh, outCh, Channels(arg, depth).value, upType, dynamicPadding);
  }

  lemma BuildNetWired(inCh: int, outCh: int, channels: seq<int>, upType: string, dynamicPadding: bool)
    requires |channels| >= 1 && BuildNet(inCh, outCh, channels, upType, dynamicPadding).Ok?
    ensures Chained(BuildNet(inCh, outCh, channels, upType, dynamicPadding).value)
    ensures var depth := |channels| - 1;
            var net := BuildNet(inCh, outCh, channels, upType, dynamicPadding).value;
            SkipsMatch(net) <==> forall d :: 0 <= d < depth ==> channels[d] != 0 || channels[d + 1] / 2 == 0
  {
    var depth := |channels| - 1;
    var net := BuildNet(inCh, outCh, channels, upType, dynamicPadding).value;
    BuildNetParts(inCh, outCh, channels, upType, dynamicPadding);
    UpBlocksFacts(channels, upType, depth);
    BuildNetChained(net, channels);
    SkipsMatchIff(net);
  }

  /** The layers of a constructed network, one by one. */
  lemma BuildNetParts(inCh: int, outCh: int, channels: seq<int>, upType: string, dynamicPadding: bool)
    requires |channels| >= 1 && BuildNet(inCh, outCh, channels, upType, dynamicPadding).Ok?
    ensures var net := BuildNet(inCh, outCh, channels, upType, dynamicPadding).value;
            var depth := |channels| - 1;
            && net.channels == channels
            && net.inConv == Conv(inCh, channels[0]) && net.outConv == Conv(channels[0], outCh)
            && |net.downs| == depth
            && (forall d :: 0 <= d < depth ==> net.downs[d] == Conv(channels[d], channels[d + 1]))
            && net.ups == BuildUps(channels, upType, 0, depth).value
  {
  }

  lemma SkipsMatchIff(net: Net)
    requires Chained(net)
    requires var depth := net.Depth();
             forall j :: 0 <= j < depth ==>
               net.ups[j].skipCh == (if net.channels[depth - 1 - j] != 0 then net.channels[depth - 1 - j] else net.channels[depth - j] / 2)
    ensures var depth := net.Depth();
            SkipsMatch(net) <==> forall d :: 0 <= d < depth ==> net.channels[d] != 0 || net.channels[d + 1] / 2 == 0
  {
    var depth := net.Depth();
    if SkipsMatch(net) {
      forall d | 0 <= d < depth
        ensures net.channels[d] != 0 || net.channels[d + 1] / 2 == 0
      {
        var j := depth - 1 - d;
        assert net.ups[j].skipCh == net.channels[d];
      }
    }
  }

  lemma BuildNetChained(net: Net, channels: seq<int>)
    requires |channels| == |net.downs| + 1 == |net.ups| + 1 && net.channels == channels
    requires net.inConv.outCh == channels[0] && net.outConv.inCh == channels[0]
    requires forall d :: 0 <= d < |net.downs| ==> net.downs[d] == Conv(channels[d], channels[d + 1])
    requires var depth := |net.downs|;
             forall j :: 0 <= j < depth ==>
               && net.ups[j].inCh == channels[depth - j] && net.ups[j].outCh == channels[depth - 1 - j]
               && net.ups[j].conv1In == net.ups[j].upCh + net.ups[j].skipCh
    ensures Chained(net)
  {
    forall d | 0 <= d < |net.downs|
      ensures net.downs[d].inCh == channels[d] && net.downs[d].outCh == channels[d + 1]
    {
      assert net.downs[d] == Conv(channels[d], channels[d + 1]);
    }
  }

  /** The up blocks as built: block `j` maps level `depth - j` to level
      `depth - 1 - j`, with the skip width that `or` settles on. */
  lemma UpBlocksFacts(channels: seq<int>, upType: string, depth: nat)
    requires |channels| == depth + 1 && BuildUps(channels, upType, 0, depth).Ok?
    ensures var ups := BuildUps(channels, upType, 0, depth).value;
            forall j :: 0 <= j < depth ==>
              && ups[j].inCh == channels[depth - j] && ups[j].outCh == channels[depth - 1 - j]
              && ups[j].conv1In == ups[j].upCh + ups[j].skipCh
              && ups[j].skipCh == (if channels[depth - 1 - j] != 0 then channels[depth - 1 - j] else channels[depth - j] / 2)
  {
    var ups := BuildUps(channels, upType, 0, depth).value;
    forall j | 0 <= j < depth
      ensures && ups[j].inCh == channels[depth - j] && ups[j].outCh == channels[depth - 1 - j]
              && ups[j].conv1In == ups[j].upCh + ups[j].skipCh
              && ups[j].skipCh == (if channels[depth - 1 - j] != 0 then channels[depth - 1 - j] else channels[depth - j] / 2)
    {
      assert NewUpBlock(channels[depth - j], channels[depth - j - 1], Some(channels[depth - j - 1]), upType) == Ok(ups[j]);
    }
  }

  /** With the doubling schedule from a positive count, each upsampled
      tensor has exactly the width of its skip tensor, so the first
      convolution of every up block takes twice its output width. */
  lemma DoublingUpBlocks(c: int, depth: nat, j: nat, upType: string)
    requires c > 0 && j < depth && upType in UpTypes
    ensures var channels := Doubling(c, depth);
            var b := NewUpBlock(channels[depth - j], channels[depth - 1 - j], Some(channels[depth - 1 - j]), upType).value;
            b.upCh == b.skipCh && b.conv1In == 2 * b.outCh
  {
    DoublingRecurrence(c, depth);
    var channels := Doubling(c, depth);
    assert channels[depth - j] == 2 * channels[depth - 1 - j];
    assert channels[depth - 1 - j] != 0 by {
      MulPositiveFactors(c, Pow2(depth - 1 - j));
    }
  }

  lemma MulPositiveFactors(a: int, b: int)
    requires a > 0 && b > 0
    ensures a * b > 0
  {
  }
}
