/**
 * The agent tool layer of the AFJ Limited app: label encoders over fixed label
 * lists, the two prediction tools' label handling, the name-to-tool table, and
 * the executor wrapper that decodes the agent's answer as a function call,
 * runs the named tool and turns failures into text.
 *
 * The language model, the JSON parser, the trained models and the tools' own
 * bodies are outside the model: their results arrive as parameters.
 */
module Tools {
  import opened Prelude

  const Brands: seq<string> := ["Seat"]
  const Models: seq<string> := ["Leon"]
  const Locations: seq<string> := ["CW", "RT", "S", "KA", "BB"]
  const Conditions: seq<string> :=
    ["Normal", "Free", "Traffic", "Emergency Braking", "Normal Icy Road",
     "Free Accelaration", "Traffic Jam Measurement error"]

  /** No two entries of the list are equal. */
  predicate Distinct(labels: seq<string>)
  {
    forall i, j :: 0 <= i < j < |labels| ==> labels[i] != labels[j]
  }

  /** The ValueError `list.index` raises for a value that is not in the list. */
  datatype LabelError = NotInList(missing: string)

  /** Python's `labels.index(x)`: the first position of `x`, or a ValueError. */
  function IndexOf(labels: seq<string>, x: string): (r: Result<nat, LabelError>)
    ensures r.Ok? ==> r.value < |labels| && labels[r.value] == x
    ensures r.Ok? ==> forall j :: 0 <= j < r.value ==> labels[j] != x
    ensures r.Err? <==> x !in labels
    ensures r.Err? ==> r.error == NotInList(x)
  {
    if |labels| == 0 then Err(NotInList(x))
    else if labels[0] == x then Ok(0)
    else match IndexOf(labels[1..], x)
      case Ok(i) => Ok(i + 1)
      case Err(e) => Err(e)
  }

  function TransformBrand(brand: string): (r: Result<nat, LabelError>)
    ensures r.Ok? <==> brand in Brands
    ensures r.Ok? ==> r.value < |Brands| && Brands[r.value] == brand
  {
    IndexOf(Brands, brand)
  }

  function TransformModel(model: string): (r: Result<nat, LabelError>)
    ensures r.Ok? <==> model in Models
    ensures r.Ok? ==> r.value < |Models| && Models[r.value] == model
  {
    IndexOf(Models, model)
  }

  function TransformLocation(location: string): (r: Result<nat, LabelError>)
    ensures r.Ok? <==> location in Locations
    ensures r.Ok? ==> r.value < |Locations| && Locations[r.value] == location
  {
    IndexOf(Locations, location)
  }

  function TransformCondition(condition: string): (r: Result<nat, LabelError>)
    ensures r.Ok? <==> condition in Conditions
    ensures r.Ok? ==> r.value < |Conditions| && Conditions[r.value] == condition
  {
    IndexOf(Conditions, condition)
  }

  /** In a list without repeats, encoding the label at position k gives k back. */
  lemma IndexOfDistinct(labels: seq<string>, k: nat)
    requires Distinct(labels) && k < |labels|
    ensures IndexOf(labels, labels[k]) == Ok(k)
  {
  }

  /** The IndexError of Python's `labels[k]`. */
  datatype IndexError = IndexOutOfRange(index: int)

  /** Python's `labels[k]`, negative indices counting from the end. */
  function PyIndex(labels: seq<string>, k: int): (r: Result<string, IndexError>)
    ensures r.Ok? <==> -|labels| <= k < |labels|
    ensures 0 <= k < |labels| ==> r == Ok(labels[k])
    ensures -|labels| <= k < 0 ==> r == Ok(labels[|labels| + k])
  {
    if 0 <= k < |labels| then Ok(labels[k])
    else if -|labels| <= k < 0 then Ok(labels[|labels| + k])
    else Err(IndexOutOfRange(k))
  }

  /** The text `predict_vehicle_condition` builds from the classifier's label index. */
  function ConditionText(prediction: int): (r: Result<string, IndexError>)
    ensures r.Ok? <==> -|Conditions| <= prediction < |Conditions|
    ensures r.Ok? ==> exists c :: c in Conditions && r.value == "The predicted condition is " + c
  {
    match PyIndex(Conditions, prediction)
    case Ok(name) => Ok("The predicted condition is " + name)
    case Err(e) => Err(e)
  }

  /** Decoding the encoding of a known condition names that condition again. */
  lemma DecodeInvertsTransformCondition(condition: string)
    requires condition in Conditions
    ensures TransformCondition(condition).Ok?
    ensures ConditionText(TransformCondition(condition).value) == Ok("The predicted condition is " + condition)
  {
  }

  /** Encoding the decoded label of any valid index gives that index back. */
  lemma TransformConditionInvertsDecode(k: nat)
    requires k < |Conditions|
    ensures PyIndex(Conditions, k).Ok?
    ensures TransformCondition(PyIndex(Conditions, k).value) == Ok(k)
  {
    IndexOfDistinct(Conditions, k);
  }

  /** What the two prediction tools can raise before reaching the trained model. */
  datatype PredictionError = UnknownLabel(e: LabelError) | BadPrediction(i: IndexError)

  /** The feature row given to the random-forest classifier. */
  datatype ConditionFeatures = ConditionFeatures(speed: real, source: nat, destination: nat, hour: int, minute: int)

  /** The feature row given to the ARIMA forecaster. */
  datatype VelocityFeatures =
    VelocityFeatures(coolantTemp: real, manifoldPressure: real, rpm: real, source: nat, destination: nat, condition: nat)

  /**
   * `predict_vehicle_condition`: encode both locations, ask the classifier
   * (`classify`) for a label index, and name the label.
   */
  function PredictVehicleCondition(speed: real, source: string, destination: string, hour: int, minute: int,
                                   classify: ConditionFeatures -> int): (r: Result<string, PredictionError>)
    ensures source !in Locations ==> r == Err(UnknownLabel(NotInList(source)))
    ensures source in Locations && destination !in Locations ==> r == Err(UnknownLabel(NotInList(destination)))
    ensures r.Ok? ==> source in Locations && destination in Locations
    ensures r.Ok? ==> exists c :: c in Conditions && r.value == "The predicted condition is " + c
    // both locations known: the answer names the label the classifier picks for the encoded features
    ensures source in Locations && destination in Locations ==>
      var text := ConditionText(classify(ConditionFeatures(speed, TransformLocation(source).value,
                                                           TransformLocation(destination).value, hour, minute)));
      r == if text.Ok? then Ok(text.value) else Err(BadPrediction(text.error))
  {
    match TransformLocation(source)
    case Err(e) => Err(UnknownLabel(e))
    case Ok(s) =>
      match TransformLocation(destination)
      case Err(e) => Err(UnknownLabel(e))
      case Ok(d) =>
        match ConditionText(classify(ConditionFeatures(speed, s, d, hour, minute)))
        case Err(e) => Err(BadPrediction(e))
        case Ok(text) => Ok(text)
  }

  /**
   * `predict_vehicle_velocity`: encode source, destination and condition, then
   * append the unit to the forecaster's rendered result (`forecast`).
   */
  function PredictVehicleVelocity(coolantTemp: real, manifoldPressure: real, rpm: real,
                                  source: string, destination: string, condition: string,
                                  forecast: VelocityFeatures -> string): (r: Result<string, PredictionError>)
    ensures r.Ok? <==> source in Locations && destination in Locations && condition in Conditions
    ensures source !in Locations ==> r == Err(UnknownLabel(NotInList(source)))
    ensures source in Locations && destination !in Locations ==> r == Err(UnknownLabel(NotInList(destination)))
    ensures source in Locations && destination in Locations && condition !in Conditions ==>
      r == Err(UnknownLabel(NotInList(condition)))
    ensures r.Ok? ==> EndsWith(r.value, " Km/h")
    // the forecaster sees the encoded labels in the source's argument order
    ensures r.Ok? ==>
      r.value == forecast(VelocityFeatures(coolantTemp, manifoldPressure, rpm, TransformLocation(source).value,
                                           TransformLocation(destination).value, TransformCondition(condition).value)) + " Km/h"
  {
    match TransformLocation(source)
    case Err(e) => Err(UnknownLabel(e))
    case Ok(s) =>
      match TransformLocation(destination)
      case Err(e) => Err(UnknownLabel(e))
      case Ok(d) =>
        match TransformCondition(condition)
        case Err(e) => Err(UnknownLabel(e))
        case Ok(c) => Ok(forecast(VelocityFeatures(coolantTemp, manifoldPressure, rpm, s, d, c)) + " Km/h")
  }

  /** A registered tool, identified by its name. */
  datatype Tool = Tool(name: string, returnDirect: bool)

  /** The tools list, in registration order. */
  const RegisteredTools: seq<Tool> :=
    [Tool("python-repl", false),
     Tool("dataset-question-answer", true),
     Tool("dataset-diagram-tool", false),
     Tool("predict-vehicle-velocity", false),
     Tool("predict-vehicle-condition", false),
     Tool("afj-limited-qa", false)]

  /** `{ tool.name: tool for tool in tools }`: insert in list order, a later name overwriting. */
  function ToolMap(tools: seq<Tool>): (m: map<string, Tool>)
    ensures forall k :: k in m ==> m[k].name == k
    ensures forall i :: 0 <= i < |tools| ==> tools[i].name in m
    ensures forall k :: k in m ==> exists i :: 0 <= i < |tools| && tools[i] == m[k]
    decreases |tools|
  {
    if |tools| == 0 then map[]
    else ToolMap(tools[..|tools| - 1])[tools[|tools| - 1].name := tools[|tools| - 1]]
  }

  /** The entry for a name is the LAST tool of the list carrying that name. */
  lemma {:induction false} ToolMapLastWins(tools: seq<Tool>, i: nat)
    requires i < |tools|
    requires forall j :: i < j < |tools| ==> tools[j].name != tools[i].name
    ensures ToolMap(tools)[tools[i].name] == tools[i]
    decreases |tools|
  {
    if i < |tools| - 1 {
      ToolMapLastWins(tools[..|tools| - 1], i);
    }
  }

  /** The application's six tools have distinct names, so each is reachable by its name. */
  lemma RegisteredToolsReachable(i: nat)
    requires i < |RegisteredTools|
    ensures ToolMap(RegisteredTools)[RegisteredTools[i].name] == RegisteredTools[i]
  {
    ToolMapLastWins(RegisteredTools, i);
  }

  /** A value `json.loads` can produce. */
  datatype Json =
    | JNull
    | JBool(b: bool)
    | JNum(n: real)
    | JStr(s: string)
    | JArr(items: seq<Json>)
    | JObj(fields: map<string, Json>)

  /** The kind of exception that escapes `run_agent_executor` uncaught. */
  datatype Crash = IndexError | KeyError | TypeError

  /** Python's `call["name"]`, then `call["arguments"]`, on one decoded value. */
  function CallParts(call: Json): (r: Result<(Json, Json), Crash>)
    ensures r.Ok? <==> call.JObj? && "name" in call.fields && "arguments" in call.fields
    ensures r.Ok? ==> r.value == (call.fields["name"], call.fields["arguments"])
    ensures !call.JObj? ==> r == Err(TypeError)
  {
    match call
    case JObj(f) =>
      if "name" !in f || "arguments" !in f then Err(KeyError)
      else Ok((f["name"], f["arguments"]))
    case _ => Err(TypeError)
  }

  /** Python's `output[0]` on a decoded value, followed by `CallParts`. */
  function FirstCall(output: Json): (r: Result<(Json, Json), Crash>)
    ensures r.Ok? <==> WellFormedCall(output)
    ensures r.Ok? ==> r.value == (output.items[0].fields["name"], output.items[0].fields["arguments"])
    // the empty list and the empty string raise IndexError, an object KeyError
    ensures (output.JArr? && |output.items| == 0) || output == JStr("") ==> r == Err(IndexError)
    ensures output.JObj? ==> r == Err(KeyError)
  {
    match output
    case JArr(items) => if |items| == 0 then Err(IndexError) else CallParts(items[0])
    case JStr(s) => if |s| == 0 then Err(IndexError) else Err(TypeError)
    case JObj(_) => Err(KeyError)
    case _ => Err(TypeError)
  }

  /** The decoded value is a non-empty list whose head is an object with `name` and `arguments`. */
  predicate WellFormedCall(output: Json)
  {
    output.JArr? && |output.items| > 0 && output.items[0].JObj?
    && "name" in output.items[0].fields && "arguments" in output.items[0].fields
  }

  /** What running a tool does: it returns a value or raises with a message. */
  datatype ToolOutcome = Returns(result: string) | Raises(msg: string)

  /** Python's `str` and `repr` of decoded values, used by the f-string and by `KeyError`. */
  datatype Show = Show(str: Json -> string, repr: Json -> string)

  /** The pair `run_agent_executor` returns: the answer and the trace message. */
  datatype Reply = Reply(output: string, message: string)

  /** Either the function returns a reply or an exception escapes it. */
  datatype Outcome = Returned(reply: Reply) | Crashed(crash: Crash)

  /** The dedented trace: one line with the name, one with the arguments. */
  function TraceMessage(name: Json, arguments: Json, show: Show): (m: string)
    ensures '\n' !in show.str(name) && '\n' !in show.str(arguments) ==>
      Split(m, "\n") == ["", "function name : " + show.str(name), "function arguments : " + show.str(arguments), ""]
  {
    var nameLine, argumentsLine := "function name : " + show.str(name), "function arguments : " + show.str(arguments);
    assert '\n' !in show.str(name) && '\n' !in show.str(arguments) ==>
      Split("\n" + nameLine + "\n" + argumentsLine + "\n", "\n") == ["", nameLine, argumentsLine, ""] by {
      if '\n' !in show.str(name) && '\n' !in show.str(arguments) {
        assert '\n' !in nameLine && '\n' !in argumentsLine;
        TwoLines(nameLine, argumentsLine);
      }
    }
    "\n" + nameLine + "\n" + argumentsLine + "\n"
  }

  /** Two newline-free lines between newlines split back into the empty first and last lines and the two. */
  lemma TwoLines(x: string, y: string)
    requires '\n' !in x && '\n' !in y
    ensures Split("\n" + x + "\n" + y + "\n", "\n") == ["", x, y, ""]
  {
    var lines := ["", x, y, ""];
    assert forall p :: p in lines ==> '\n' !in p;
    SplitJoin(lines, '\n');
    JoinTwoLines(x, y);
  }

  /** Joining the four lines of a two-line trace with newlines. */
  lemma JoinTwoLines(x: string, y: string)
    ensures Join(["", x, y, ""], "\n") == "\n" + x + "\n" + y + "\n"
  {
    var lines := ["", x, y, ""];
    assert lines[1..] == [x, y, ""] && lines[2..] == [y, ""] && lines[3..] == [""];
    assert Join(lines[2..], "\n") == y + "\n" + "";
    assert Join(lines[1..], "\n") == x + "\n" + (y + "\n" + "");
    assert "\n" + x + "\n" + y + "\n" == "" + "\n" + (x + "\n" + (y + "\n" + ""));
  }

  /** `str(e)` of the exception `tool_map[name]` raises for a name with no tool. */
  function LookupErrorText(name: Json, show: Show): (t: string)
    ensures name.JArr? || name.JObj? ==> |t| > 17 && t[..17] == "unhashable type: "
    ensures !name.JArr? && !name.JObj? ==> t == show.repr(name)
  {
    match name
    case JArr(_) => "unhashable type: 'list'"
    case JObj(_) => "unhashable type: 'dict'"
    case _ => show.repr(name)
  }

  /** The prefix every caught failure is reported with. */
  const FailurePrefix: string := "function call failed with error "

  /** The tool the decoded name selects, if any. */
  function Lookup(tools: seq<Tool>, name: Json): Option<Tool>
  {
    if name.JStr? && name.s in ToolMap(tools) then Some(ToolMap(tools)[name.s]) else None
  }

  /**
   * `run_agent_executor` after the agent has answered `raw`; `decoded` is what
   * `json.loads(raw)` gives (None for a JSONDecodeError).
   */
  function RunAgentExecutor(raw: string, decoded: Option<Json>, tools: seq<Tool>,
                            run: (Tool, Json) -> ToolOutcome, show: Show): (r: Outcome)
    // not JSON: the raw answer is passed through and no tool runs
    ensures decoded.None? ==> r == Returned(Reply(raw, "No function call"))
    // decoded but malformed: the exception at output[0], ["name"] or ["arguments"] escapes
    ensures r.Crashed? <==> decoded.Some? && !WellFormedCall(decoded.value)
    ensures r.Crashed? ==> r.crash == FirstCall(decoded.value).error
  {
    match decoded
    case None => Returned(Reply(raw, "No function call"))
    case Some(output) =>
      match FirstCall(output)
      case Err(crash) => Crashed(crash)
      case Ok((name, arguments)) =>
        var message := TraceMessage(name, arguments, show);
        match Lookup(tools, name)
        case None => Returned(Reply(FailurePrefix + LookupErrorText(name, show), message))
        case Some(tool) =>
          match run(tool, arguments)
          case Returns(result) => Returned(Reply(result, message))
          case Raises(msg) => Returned(Reply(FailurePrefix + msg, message))
  }

  /** For a well-formed call the trace names the first call's name and arguments, whatever happens next. */
  lemma RunAgentExecutorTrace(raw: string, output: Json, tools: seq<Tool>, run: (Tool, Json) -> ToolOutcome, show: Show)
    requires WellFormedCall(output)
    ensures var f := output.items[0].fields;
      RunAgentExecutor(raw, Some(output), tools, run, show)
        == Returned(Reply(RunAgentExecutor(raw, Some(output), tools, run, show).reply.output,
                          TraceMessage(f["name"], f["arguments"], show)))
  {
  }

  /** A name that no tool carries is reported as a failure, not raised, and no tool runs. */
  lemma RunAgentExecutorUnknownTool(raw: string, output: Json, tools: seq<Tool>, run: (Tool, Json) -> ToolOutcome, show: Show)
    requires WellFormedCall(output)
    requires var name := output.items[0].fields["name"];
      !name.JStr? || forall i :: 0 <= i < |tools| ==> tools[i].name != name.s
    ensures var name := output.items[0].fields["name"];
      RunAgentExecutor(raw, Some(output), tools, run, show).reply.output == FailurePrefix + LookupErrorText(name, show)
  {
  }

  /**
   * A known name runs the LAST tool registered under it on the call's
   * arguments; its value is the answer, and a raised message becomes a failure text.
   */
  lemma RunAgentExecutorRunsTool(raw: string, output: Json, tools: seq<Tool>, run: (Tool, Json) -> ToolOutcome, show: Show, i: nat)
    requires WellFormedCall(output)
    requires i < |tools| && JStr(tools[i].name) == output.items[0].fields["name"]
    requires forall j :: i < j < |tools| ==> tools[j].name != tools[i].name
    ensures RunAgentExecutor(raw, Some(output), tools, run, show).reply.output
      == match run(tools[i], output.items[0].fields["arguments"])
         case Returns(result) => result
         case Raises(msg) => FailurePrefix + msg
  {
    ToolMapLastWins(tools, i);
  }
}
