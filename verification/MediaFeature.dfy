/** Media features: what is written about one, what it means, and how it is printed
    (Media Queries Level 4, sections 2.4 and 4 to 8). */
module MediaFeature {
  import opened Ascii
  import opened Numbers
  import opened Wrappers
  import opened MediaText

  // ---- features ----

  datatype FeatureType = Length | Ratio | Resolution | Integer | Discrete

  datatype Feature = Feature(name: string, kind: FeatureType, keywords: seq<string>)

  function Keywords(name: string): (kws: seq<string>)
    ensures kws != [] ==> name != "" && 'a' <= name[0] <= 'z' && name[0] != 'n' && name[0] != 'm'
  {
    match name
    case "orientation" => ["portrait", "landscape"]
    case "scan" => ["interlace", "progressive"]
    case "overflow-block" => ["none", "scroll", "paged"]
    case "overflow-inline" => ["none", "scroll"]
    case "update" => ["none", "slow", "fast"]
    case "hover" => ["none", "hover"]
    case "any-hover" => ["none", "hover"]
    case "pointer" => ["none", "coarse", "fine"]
    case "any-pointer" => ["none", "coarse", "fine"]
    case "prefers-color-scheme" => ["light", "dark"]
    case "prefers-reduced-motion" => ["no-preference", "reduce"]
    case "prefers-reduced-transparency" => ["no-preference", "reduce"]
    case "prefers-contrast" => ["no-preference", "less", "more", "custom"]
    case "prefers-reduced-data" => ["no-preference", "reduce"]
    case "forced-colors" => ["none", "active"]
    case "inverted-colors" => ["none", "inverted"]
    case "color-gamut" => ["srgb", "p3", "rec2020"]
    case "scripting" => ["none", "initial-only", "enabled"]
    case "display-mode" =>
      ["fullscreen", "standalone", "minimal-ui", "browser", "picture-in-picture", "window-controls-overlay"]
    case "dynamic-range" => ["standard", "high"]
    case "video-dynamic-range" => ["standard", "high"]
    case _ => []
  }

  /** Whether a name begins with min- (1), max- (2) or neither. */
  function MinMax(name: string): nat {
    if |name| >= 4 && name[0] == 'm' && name[3] == '-' then
      if name[1] == 'i' && name[2] == 'n' then 1 else if name[1] == 'a' && name[2] == 'x' then 2 else 0
    else 0
  }

  function KindOf(name: string): (k: Option<FeatureType>)
    ensures k.Some? ==> name != "" && 'a' <= name[0] <= 'z' && name[0] != 'n'
    ensures k.Some? && name[0] == 'm' ==> |name| > 3 && name[3] == 'o'
  {
    match name
    case "width" => Some(Length)
    case "height" => Some(Length)
    case "device-width" => Some(Length)
    case "device-height" => Some(Length)
    case "inline-size" => Some(Length)
    case "block-size" => Some(Length)
    case "aspect-ratio" => Some(Ratio)
    case "device-aspect-ratio" => Some(Ratio)
    case "resolution" => Some(Resolution)
    case "color" => Some(Integer)
    case "color-index" => Some(Integer)
    case "monochrome" => Some(Integer)
    case "grid" => Some(Integer)
    case _ => if Keywords(name) != [] then Some(Discrete) else None
  }

  /** The feature of a name, given in lower case. */
  function Lookup(name: string): (f: Option<Feature>)
    ensures f.Some? ==> f.value.name == name && name != "" && MinMax(name) == 0
    ensures f.Some? ==> 'a' <= name[0] <= 'z' && name[0] != 'n'
  {
    match KindOf(name)
    case None => None
    case Some(kind) => Some(Feature(name, kind, Keywords(name)))
  }

  // ---- the environment ----

  /** What queries are asked of.  `number` reads a numeral as strtod does; `calcValue` gives the value of a
      calc() expression, in pixels or in dots per pixel, if it has one. */
  datatype Env = Env(
    viewWidth: real, viewHeight: real, deviceWidth: real, deviceHeight: real,
    printing: bool, dark: bool, reduce: bool,
    number: string -> Option<Number>, calcValue: (FeatureType, string) -> Option<real>)

  function LengthPx(v: real, unit: string, env: Env): Option<real> {
    match unit
    case "px" => Some(v)
    case "em" => Some(v * 16.0)
    case "rem" => Some(v * 16.0)
    case "ex" => Some(v * 8.0)
    case "ch" => Some(v * 8.0)
    case "cm" => Some(v * 96.0 / 2.54)
    case "mm" => Some(v * 96.0 / 25.4)
    case "q" => Some(v * 96.0 / 101.6)
    case "in" => Some(v * 96.0)
    case "pt" => Some(v * 96.0 / 72.0)
    case "pc" => Some(v * 16.0)
    case "vw" => Some(v * env.viewWidth / 100.0)
    case "vh" => Some(v * env.viewHeight / 100.0)
    case "vmin" => Some(v * MinReal(env.viewWidth, env.viewHeight) / 100.0)
    case "vmax" => Some(v * MaxReal(env.viewWidth, env.viewHeight) / 100.0)
    case _ => None
  }

  function ResolutionDppx(v: real, unit: string): Option<real> {
    match unit
    case "dppx" => Some(v)
    case "x" => Some(v)
    case "dpi" => Some(v / 96.0)
    case "dpcm" => Some(v * 2.54 / 96.0)
    case _ => None
  }

  // ---- values ----

  datatype Value = Ident(text: string) | Num(num: real, denom: real)

  /** The letters of a unit, at most seven and nothing after them. */
  function UnitOf(s: string): Option<string> {
    if |s| <= 7 && forall i :: 0 <= i < |s| ==> IsAlpha(s[i]) then Some(Lower(s)) else None
  }

  predicate IsCalc(s: string) { |s| >= 5 && Lower(s[..5]) == "calc(" }

  function ParseDiscrete(s: string, f: Feature): Option<Value> {
    match ReadIdent(s, 24)
    case None => None
    case Some(r) => if SkipWs(r.rest) == "" && r.ident in f.keywords then Some(Ident(r.ident)) else None
  }

  function ParseInteger(s: string, f: Feature, env: Env): Option<Value> {
    var sign := SignLength(s);
    if |s| == sign || !AllDigits(s[sign..]) then None
    else match env.number(s)
      case None => None
      case Some(n) =>
        if f.name == "grid" && n.value != 0.0 && n.value != 1.0 then None else Some(Num(n.value, 1.0))
  }

  function ParseRatio(s: string, env: Env): Option<Value> {
    match env.number(s)
    case None => None
    case Some(a) =>
      if a.value < 0.0 then None
      else
        var p := SkipWs(a.rest);
        if p == "" then Some(Num(a.value, 1.0))
        else if p[0] != '/' then None
        else match env.number(SkipWs(p[1..]))
          case None => None
          case Some(b) =>
            if b.value < 0.0 || SkipWs(b.rest) != "" then None else Some(Num(a.value, b.value))
  }

  function ParseResolution(s: string, env: Env): Option<Value> {
    if IsCalc(s) then
      match env.calcValue(Resolution, s) case None => None case Some(v) => Some(Num(v, 1.0))
    else match env.number(s)
      case None => None
      case Some(n) =>
        if n.value < 0.0 then None
        else match UnitOf(n.rest)
          case None => None
          case Some(unit) =>
            match ResolutionDppx(n.value, unit) case None => None case Some(v) => Some(Num(v, 1.0))
  }

  function ParseLength(s: string, env: Env): Option<Value> {
    if IsCalc(s) then
      match env.calcValue(Length, s) case None => None case Some(v) => Some(Num(v, 1.0))
    else match env.number(s)
      case None => None
      case Some(n) =>
        match UnitOf(n.rest)
        case None => None
        case Some(unit) =>
          if unit == "" then if n.value == 0.0 then Some(Num(0.0, 1.0)) else None
          else match LengthPx(n.value, unit, env) case None => None case Some(v) => Some(Num(v, 1.0))
  }

  function ParseValue(s: string, f: Feature, env: Env): Option<Value> {
    var t := Trim(s);
    if t == "" then None
    else match f.kind
      case Discrete => ParseDiscrete(t, f)
      case Integer => ParseInteger(t, f, env)
      case Ratio => ParseRatio(t, env)
      case Resolution => ParseResolution(t, env)
      case Length => ParseLength(t, env)
  }

  // ---- tests ----

  datatype Op = Eq | Lt | Le | Gt | Ge

  /** What is said of a feature: only its name, a value after a colon with min- (1) or max- (2) before
      the name perhaps, or comparisons. */
  datatype Said =
    | Bare
    | Plain(minmax: nat, value: Value)
    | Compared(op: Op, value: Value)
    | Between(op1: Op, low: Value, op2: Op, high: Value)

  datatype Test = Test(feature: Feature, said: Said)

  datatype Found = Found(at: nat, op: Op, length: nat)

  /** The first comparison outside parentheses. */
  function FindOp(s: string, depth: nat): (r: Option<Found>)
    ensures r.Some? ==> r.value.at + r.value.length <= |s| && r.value.length > 0
    decreases |s|
  {
    if s == "" then None
    else if depth == 0 && (s[0] == '<' || s[0] == '>' || s[0] == '=') then
      var eq := s[0] != '=' && |s| > 1 && s[1] == '=';
      Some(Found(0, if s[0] == '<' then if eq then Le else Lt else if s[0] == '>' then if eq then Ge else Gt else Eq,
                 if eq then 2 else 1))
    else
      match FindOp(s[1..], if s[0] == '(' then depth + 1 else if s[0] == ')' && depth > 0 then depth - 1 else depth)
      case None => None
      case Some(f) => Some(f.(at := f.at + 1))
  }

  /** The first colon outside parentheses. */
  function FindColon(s: string, depth: nat): (r: Option<nat>)
    ensures r.Some? ==> r.value < |s|
    decreases |s|
  {
    if s == "" then None
    else if depth == 0 && s[0] == ':' then Some(0)
    else
      match FindColon(s[1..], if s[0] == '(' then depth + 1 else if s[0] == ')' && depth > 0 then depth - 1 else depth)
      case None => None
      case Some(k) => Some(k + 1)
  }

  /** A side of a comparison that names a feature comparisons may be made of. */
  function SideFeature(s: string): Option<Feature> {
    match ReadIdent(Trim(s), 40)
    case None => None
    case Some(r) =>
      if r.rest != "" then None
      else match Lookup(r.ident)
        case None => None
        case Some(f) => if f.kind == Discrete || f.name == "grid" then None else Some(f)
  }

  predicate Below(op: Op) { op == Lt || op == Le }
  predicate Above(op: Op) { op == Gt || op == Ge }

  function Flipped(op: Op): Op {
    match op case Lt => Gt case Le => Ge case Gt => Lt case Ge => Le case Eq => Eq
  }

  function ParsePlain(name: string, value: string, env: Env): Option<Test> {
    match ReadIdent(name, 40)
    case None => None
    case Some(r) =>
      if SkipWs(r.rest) != "" then None
      else
        var minmax := MinMax(r.ident);
        match Lookup(if minmax == 0 then r.ident else r.ident[4..])
        case None => None
        case Some(f) =>
          if minmax != 0 && (f.kind == Discrete || f.name == "grid") then None
          else match ParseValue(value, f, env)
            case None => None
            case Some(v) => Some(Test(f, Plain(minmax, v)))
  }

  function ParseBetween(left: string, op1: Op, middle: string, op2: Op, right: string, env: Env): Option<Test> {
    match SideFeature(middle)
    case None => None
    case Some(f) =>
      if !((Below(op1) && Below(op2)) || (Above(op1) && Above(op2))) then None
      else match ParseValue(left, f, env)
        case None => None
        case Some(low) =>
          match ParseValue(right, f, env)
          case None => None
          case Some(high) => Some(Test(f, Between(op1, low, op2, high)))
  }

  function ParseCompared(left: string, op: Op, right: string, env: Env): Option<Test> {
    match SideFeature(left)
    case Some(f) =>
      (match ParseValue(right, f, env) case None => None case Some(v) => Some(Test(f, Compared(op, v))))
    case None =>
      match SideFeature(right)
      case None => None
      case Some(f) =>
        match ParseValue(left, f, env) case None => None case Some(v) => Some(Test(f, Compared(Flipped(op), v)))
  }

  function ParseBare(s: string): Option<Test> {
    match ReadIdent(s, 40)
    case None => None
    case Some(r) =>
      if SkipWs(r.rest) != "" then None
      else match Lookup(r.ident) case None => None case Some(f) => Some(Test(f, Bare))
  }

  datatype Cut =
    | Whole(text: string)
    | OneCut(left: string, op: Op, right: string)
    | TwoCuts(left: string, op1: Op, middle: string, op2: Op, right: string)

  /** The text cut at its first two comparisons. */
  function CutAtOps(t: string): Cut {
    match FindOp(t, 0)
    case None => Whole(t)
    case Some(o1) =>
      var left, after := t[..o1.at], t[o1.at + o1.length..];
      match FindOp(after, 0)
      case Some(o2) => TwoCuts(left, o1.op, after[..o2.at], o2.op, after[o2.at + o2.length..])
      case None => OneCut(left, o1.op, after)
  }

  /** A feature without a colon: comparisons, or only a name. */
  function ParseRange(cut: Cut, env: Env): Option<Test> {
    match cut
    case Whole(text) => ParseBare(text)
    case OneCut(left, op, right) => ParseCompared(left, op, right, env)
    case TwoCuts(left, op1, middle, op2, right) => ParseBetween(left, op1, middle, op2, right, env)
  }

  /** A name and a value around a colon, or what stands between comparisons. */
  datatype Shape = Named(name: string, value: string) | Ranged(cut: Cut)

  function ShapeOf(t: string): Shape {
    match FindColon(t, 0)
    case Some(colon) => Named(t[..colon], t[colon + 1..])
    case None => Ranged(CutAtOps(t))
  }

  function ParseShape(shape: Shape, env: Env): Option<Test> {
    match shape
    case Named(name, value) => ParsePlain(name, value, env)
    case Ranged(cut) => ParseRange(cut, env)
  }

  /** What stands between the parentheses of a feature. */
  function ParseTest(s: string, env: Env): Option<Test> {
    var t := Trim(s);
    if t == "" then None else ParseShape(ShapeOf(t), env)
  }

  // ---- meaning ----

  datatype Tri = No | Yes | Dunno

  function Not(a: Tri): Tri {
    match a case Yes => No case No => Yes case Dunno => Dunno
  }

  function And(a: Tri, b: Tri): Tri {
    if a == No || b == No then No else if a == Yes && b == Yes then Yes else Dunno
  }

  function Or(a: Tri, b: Tri): Tri {
    if a == Yes || b == Yes then Yes else if a == No && b == No then No else Dunno
  }

  function Truth(b: bool): Tri { if b then Yes else No }

  /** The keyword a discrete feature has, if it has any. */
  function CurrentKeyword(name: string, env: Env): Option<string> {
    match name
    case "orientation" => Some(if env.viewWidth >= env.viewHeight then "landscape" else "portrait")
    case "hover" => Some("hover")
    case "any-hover" => Some("hover")
    case "pointer" => Some("fine")
    case "any-pointer" => Some("fine")
    case "update" => Some("fast")
    case "overflow-block" => Some("scroll")
    case "overflow-inline" => Some("scroll")
    case "scripting" => Some("enabled")
    case "display-mode" => Some("browser")
    case "forced-colors" => Some("none")
    case "inverted-colors" => Some("none")
    case "color-gamut" => Some("srgb")
    case "dynamic-range" => Some("standard")
    case "video-dynamic-range" => Some("standard")
    case "prefers-color-scheme" => Some(if env.dark then "dark" else "light")
    case "prefers-reduced-motion" => Some(if env.reduce then "reduce" else "no-preference")
    case "prefers-reduced-transparency" => Some("no-preference")
    case "prefers-contrast" => Some("no-preference")
    case "prefers-reduced-data" => Some("no-preference")
    case _ => None
  }

  /** The value of a range feature, as a fraction. */
  function CurrentValue(name: string, env: Env): Option<(real, real)> {
    match name
    case "width" => Some((env.viewWidth, 1.0))
    case "inline-size" => Some((env.viewWidth, 1.0))
    case "height" => Some((env.viewHeight, 1.0))
    case "block-size" => Some((env.viewHeight, 1.0))
    case "device-width" => Some((env.deviceWidth, 1.0))
    case "device-height" => Some((env.deviceHeight, 1.0))
    case "aspect-ratio" => Some((env.viewWidth, env.viewHeight))
    case "device-aspect-ratio" => Some((env.deviceWidth, env.deviceHeight))
    case "resolution" => Some((1.0, 1.0))
    case "color" => Some((8.0, 1.0))
    case "monochrome" => Some((0.0, 1.0))
    case "color-index" => Some((0.0, 1.0))
    case "grid" => Some((0.0, 1.0))
    case _ => None
  }

  function Compare(a: real, ad: real, op: Op, v: Value): Tri {
    var b, bd := if v.Num? then v.num else 0.0, if v.Num? then v.denom else 0.0;
    var l, r := a * bd, b * ad;
    match op
    case Eq => Truth(l == r)
    case Lt => Truth(l < r)
    case Le => Truth(l <= r)
    case Gt => Truth(l > r)
    case Ge => Truth(l >= r)
  }

  function PlainOp(minmax: nat): Op { if minmax == 1 then Ge else if minmax == 2 then Le else Eq }

  function EvalDiscrete(t: Test, env: Env): Tri {
    match CurrentKeyword(t.feature.name, env)
    case None => No
    case Some(current) =>
      match t.said
      case Bare => Truth(current != "none" && current != "no-preference")
      case Plain(_, v) => Truth(v.Ident? && current == v.text)
      case _ => No
  }

  function EvalRange(t: Test, env: Env): Tri {
    match CurrentValue(t.feature.name, env)
    case None => Dunno
    case Some(c) =>
      match t.said
      case Bare => Truth(if t.feature.kind == Ratio then c.0 > 0.0 && c.1 > 0.0 else c.0 != 0.0)
      case Plain(minmax, v) => Compare(c.0, c.1, PlainOp(minmax), v)
      case Compared(op, v) => Compare(c.0, c.1, op, v)
      case Between(op1, low, op2, high) => And(Compare(c.0, c.1, Flipped(op1), low), Compare(c.0, c.1, op2, high))
  }

  function EvalTest(t: Test, env: Env): Tri {
    if t.feature.kind == Discrete then EvalDiscrete(t, env) else EvalRange(t, env)
  }

  // ---- printing; `g` is the printing of numbers by `%g` ----

  function PrintValue(v: Value, kind: FeatureType, g: real -> string): string {
    match v
    case Ident(text) => text
    case Num(num, denom) =>
      match kind
      case Ratio => g(num) + (" / " + g(denom))
      case Resolution => g(num) + "dppx"
      case Length => g(num) + "px"
      case _ => g(num)
  }

  function OpText(op: Op): string {
    match op case Eq => "=" case Lt => "<" case Le => "<=" case Gt => ">" case Ge => ">="
  }

  /** The name of a plain feature with its prefix. */
  function PrefixedName(minmax: nat, name: string): string {
    if minmax == 1 then "min-" + name else if minmax == 2 then "max-" + name else name
  }

  function PrintTest(t: Test, g: real -> string): string {
    var name, kind := t.feature.name, t.feature.kind;
    match t.said
    case Bare => name
    case Plain(minmax, v) => PrefixedName(minmax, name) + (": " + PrintValue(v, kind, g))
    case Compared(op, v) => (name + " ") + (OpText(op) + (" " + PrintValue(v, kind, g)))
    case Between(op1, low, op2, high) =>
      (PrintValue(low, kind,
          g) + " ") + (OpText(op1) + ((" " + (name + " ")) + (OpText(op2) + (" " + PrintValue(high, kind, g)))))
  }
}
