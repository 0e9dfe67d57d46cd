/**
 * The XML agent's prompt serialisers: the scratchpad built from the agent's
 * intermediate steps, and the tool list rendered one tool per line. A tool
 * input and an observation enter the scratchpad through an f-string, so they
 * are modelled by their `str()` text.
 */
module Agents {
  import opened Prelude

  /** A step's `action`: the tool the agent chose and the `str()` of its input. */
  datatype AgentAction = AgentAction(tool: string, toolInput: string)

  /** One `(action, observation)` pair of `intermediate_steps`. */
  datatype Step = Step(action: AgentAction, observation: string)

  /** The scratchpad text one step contributes: the three fields, each in its own tags. */
  function Fragment(s: Step): (r: string)
    ensures |r| == 65 + |s.action.tool| + |s.action.toolInput| + |s.observation|
    ensures r[..6] == "<tool>"
    ensures r[..6 + |s.action.tool|] == "<tool>" + s.action.tool
    ensures r[|r| - 14 - |s.observation|..] == s.observation + "</observation>"
  {
    "<tool>" + s.action.tool + "</tool><tool_input>" + s.action.toolInput
    + "</tool_input><observation>" + s.observation + "</observation>"
  }

  /** The scratchpad of a list of steps: their fragments, first step first. */
  function Log(steps: seq<Step>): (r: string)
    ensures r == "" <==> |steps| == 0
    ensures |steps| > 0 ==> |r| >= 65 && r[..6] == "<tool>"
  {
    if |steps| == 0 then "" else Fragment(steps[0]) + Log(steps[1..])
  }

  /** Appending a step appends its fragment. */
  lemma {:induction false} LogSnoc(steps: seq<Step>, s: Step)
    ensures Log(steps + [s]) == Log(steps) + Fragment(s)
    decreases |steps|
  {
    if |steps| == 0 {
      assert [] + [s] == [s];
      assert [s][1..] == [];
    } else {
      assert (steps + [s])[1..] == steps[1..] + [s];
      LogSnoc(steps[1..], s);
    }
  }

  /** The scratchpad of two runs of steps is the two scratchpads in order. */
  lemma {:induction false} LogAppend(xs: seq<Step>, ys: seq<Step>)
    ensures Log(xs + ys) == Log(xs) + Log(ys)
    decreases |xs|
  {
    if |xs| == 0 {
      assert xs + ys == ys;
    } else {
      assert (xs + ys)[1..] == xs[1..] + ys;
      LogAppend(xs[1..], ys);
    }
  }

  /** The scratchpad of a prefix of the steps is a prefix of the scratchpad. */
  lemma LogPrefix(steps: seq<Step>, i: nat)
    requires i <= |steps|
    ensures |Log(steps[..i])| <= |Log(steps)|
    ensures Log(steps)[..|Log(steps[..i])|] == Log(steps[..i])
  {
    assert steps == steps[..i] + steps[i..];
    LogAppend(steps[..i], steps[i..]);
  }

  /** `convert_intermediate_steps`: the `log +=` loop over the steps. */
  method ConvertIntermediateSteps(steps: seq<Step>) returns (log: string)
    ensures log == Log(steps)
    ensures |steps| == 0 ==> log == ""
  {
    log := "";
    for i := 0 to |steps|
      invariant log == Log(steps[..i])
    {
      assert steps[..i + 1] == steps[..i] + [steps[i]];
      LogSnoc(steps[..i], steps[i]);
      log := log + Fragment(steps[i]);
    }
    assert steps[..|steps|] == steps;
  }

  /** A tool as `convert_tools` reads it. */
  datatype ToolInfo = ToolInfo(name: string, description: string)

  /** The line for one tool. */
  function Line(t: ToolInfo): string
  {
    t.name + ": " + t.description
  }

  /** The list comprehension: one line per tool, in order. */
  function Lines(tools: seq<ToolInfo>): (r: seq<string>)
    ensures |r| == |tools| && forall i :: 0 <= i < |tools| ==> r[i] == Line(tools[i])
  {
    seq(|tools|, i requires 0 <= i < |tools| => Line(tools[i]))
  }

  /** `convert_tools`. */
  function ConvertTools(tools: seq<ToolInfo>): (r: string)
    ensures |tools| == 0 ==> r == ""
    ensures |tools| == 1 ==> r == tools[0].name + ": " + tools[0].description
  {
    Join(Lines(tools), "\n")
  }

  /** Adding a tool adds a newline and its line. */
  lemma ConvertToolsSnoc(tools: seq<ToolInfo>, t: ToolInfo)
    requires |tools| > 0
    ensures ConvertTools(tools + [t]) == ConvertTools(tools) + "\n" + Line(t)
  {
    assert Lines(tools + [t]) == Lines(tools) + [Line(t)];
    JoinSnoc(Lines(tools), Line(t), "\n");
  }

  /**
   * When no name or description holds a newline, splitting the rendering at
   * newlines gives back exactly one line per tool.
   */
  lemma ConvertToolsLines(tools: seq<ToolInfo>)
    requires |tools| > 0
    requires forall t :: t in tools ==> '\n' !in t.name && '\n' !in t.description
    ensures Split(ConvertTools(tools), "\n") == Lines(tools)
  {
    var lines := Lines(tools);
    forall p | p in lines
      ensures '\n' !in p
    {
      var i :| 0 <= i < |lines| && lines[i] == p;
      assert tools[i] in tools;
      assert p == tools[i].name + ": " + tools[i].description;
    }
    SplitJoin(lines, '\n');
  }

  /** The `search` tool answers every query the same way. */
  function Search(query: string): (r: string)
    ensures r == "32 degrees"
  {
    "32 degrees"
  }
}
