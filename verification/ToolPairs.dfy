/** Removing unpaired tool calls and results from a message history before it is sent. */
module ToolPairs {
  import opened JsObject

  datatype Block = ToolCall(id: string, payload: string) | ToolResult(toolCallId: string, payload: string) | OtherBlock(payload: string)

  datatype Role = Assistant | User | Tool | OtherRole

  datatype Content = Text(text: string) | Blocks(blocks: seq<Block>)

  datatype Message = Message(role: Role, toolCallId: Option<string>, content: Content)

  datatype Options = Options(provider: string, messages: Option<seq<Message>>)

  /** A message that is one whole result. */
  predicate IsToolRoleResult(m: Message) { m.role == Tool && m.toolCallId.Some? }

  /** Calls belong to assistant messages, result blocks to user messages. */
  predicate RoleValid(role: Role, b: Block) {
    match b
    case ToolCall(_, _) => role == Assistant
    case ToolResult(_, _) => role == User
    case OtherBlock(_) => true
  }

  function BlocksOf(m: Message): seq<Block> {
    if m.content.Blocks? then m.content.blocks else []
  }

  // ----- the ids that pair -----

  function CallsIn(bs: seq<Block>): set<string> {
    if bs == [] then {}
    else CallsIn(bs[..|bs| - 1]) + (if bs[|bs| - 1].ToolCall? then {bs[|bs| - 1].id} else {})
  }

  function ResultsIn(bs: seq<Block>): set<string> {
    if bs == [] then {}
    else ResultsIn(bs[..|bs| - 1]) + (if bs[|bs| - 1].ToolResult? then {bs[|bs| - 1].toolCallId} else {})
  }

  function OwnResult(m: Message): set<string> {
    if IsToolRoleResult(m) then {m.toolCallId.value} else {}
  }

  function AllCalls(ms: seq<Message>): set<string> {
    if ms == [] then {} else AllCalls(ms[..|ms| - 1]) + CallsIn(BlocksOf(ms[|ms| - 1]))
  }

  function AllResults(ms: seq<Message>): set<string> {
    if ms == [] then {} else AllResults(ms[..|ms| - 1]) + (OwnResult(ms[|ms| - 1]) + ResultsIn(BlocksOf(ms[|ms| - 1])))
  }

  lemma OneMoreBlock(bs: seq<Block>, j: nat)
    requires j < |bs|
    ensures CallsIn(bs[..j + 1]) == CallsIn(bs[..j]) + (if bs[j].ToolCall? then {bs[j].id} else {})
    ensures ResultsIn(bs[..j + 1]) == ResultsIn(bs[..j]) + (if bs[j].ToolResult? then {bs[j].toolCallId} else {})
  {
    assert bs[..j + 1][..j] == bs[..j];
  }

  lemma OneMoreMessage(ms: seq<Message>, i: nat)
    requires i < |ms|
    ensures AllCalls(ms[..i + 1]) == AllCalls(ms[..i]) + CallsIn(BlocksOf(ms[i]))
    ensures AllResults(ms[..i + 1]) == AllResults(ms[..i]) + (OwnResult(ms[i]) + ResultsIn(BlocksOf(ms[i])))
  {
    assert ms[..i + 1][..i] == ms[..i];
  }

  /** The blocks of one message. */
  method AddBlockIds(before: set<string>, earlier: set<string>, bs: seq<Block>) returns (calls: set<string>, results: set<string>)
    ensures calls == before + CallsIn(bs) && results == earlier + ResultsIn(bs)
  {
    calls, results := before, earlier;
    var j := 0;
    while j < |bs|
      invariant 0 <= j <= |bs|
      invariant calls == before + CallsIn(bs[..j]) && results == earlier + ResultsIn(bs[..j])
    {
      OneMoreBlock(bs, j);
      if bs[j].ToolCall? { calls := calls + {bs[j].id}; }
      else if bs[j].ToolResult? { results := results + {bs[j].toolCallId}; }
      j := j + 1;
    }
    assert bs[..j] == bs;
  }

  method ToolPairIds(ms: seq<Message>) returns (calls: set<string>, results: set<string>)
    ensures calls == AllCalls(ms) && results == AllResults(ms)
  {
    calls, results := {}, {};
    var i := 0;
    while i < |ms|
      invariant 0 <= i <= |ms| && calls == AllCalls(ms[..i]) && results == AllResults(ms[..i])
    {
      var m := ms[i];
      OneMoreMessage(ms, i);
      if IsToolRoleResult(m) { results := results + {m.toolCallId.value}; }
      if m.content.Blocks? { calls, results := AddBlockIds(calls, results, m.content.blocks); }
      i := i + 1;
    }
    assert ms[..i] == ms;
  }

  function ValidBlocks(role: Role, bs: seq<Block>): seq<Block> {
    if bs == [] then []
    else if RoleValid(role, bs[|bs| - 1]) then ValidBlocks(role, bs[..|bs| - 1]) + [bs[|bs| - 1]]
    else ValidBlocks(role, bs[..|bs| - 1])
  }

  function WithBlocks(m: Message, bs: seq<Block>): Message {
    if m.content.Blocks? then m.(content := Blocks(bs)) else m
  }

  function RoleValidMessages(ms: seq<Message>): seq<Message> {
    if ms == [] then []
    else RoleValidMessages(ms[..|ms| - 1]) + [WithBlocks(ms[|ms| - 1], ValidBlocks(ms[|ms| - 1].role, BlocksOf(ms[|ms| - 1])))]
  }

  /** Ids of the calls and results the provider would see: blocks nested in a whole-result message are not among them. */
  function CallIds(ms: seq<Message>): set<string> { AllCalls(RoleValidMessages(ms)) }
  function ResultIds(ms: seq<Message>): set<string> { AllResults(RoleValidMessages(ms)) }

  // ----- the two filters -----

  function Kept(ms: seq<Message>, orphanResults: set<string>): seq<Message> {
    if ms == [] then []
    else
      var m := ms[|ms| - 1];
      if IsToolRoleResult(m) && m.toolCallId.value in orphanResults then Kept(ms[..|ms| - 1], orphanResults)
      else Kept(ms[..|ms| - 1], orphanResults) + [m]
  }

  predicate BlockStays(role: Role, b: Block, orphanCalls: set<string>, orphanResults: set<string>) {
    && RoleValid(role, b)
    && !(b.ToolCall? && b.id in orphanCalls)
    && !(b.ToolResult? && b.toolCallId in orphanResults)
  }

  function StayingBlocks(role: Role, bs: seq<Block>, orphanCalls: set<string>, orphanResults: set<string>): seq<Block> {
    if bs == [] then []
    else
      var front := StayingBlocks(role, bs[..|bs| - 1], orphanCalls, orphanResults);
      if BlockStays(role, bs[|bs| - 1], orphanCalls, orphanResults) then front + [bs[|bs| - 1]] else front
  }

  function Cleaned(ms: seq<Message>, orphanCalls: set<string>, orphanResults: set<string>): seq<Message> {
    if ms == [] then []
    else
      var m := ms[|ms| - 1];
      Cleaned(ms[..|ms| - 1], orphanCalls, orphanResults)
      + [if IsToolRoleResult(m) then m else WithBlocks(m, StayingBlocks(m.role, BlocksOf(m), orphanCalls, orphanResults))]
  }

  predicate HasRoleInvalidBlocks(ms: seq<Message>) {
    exists i, j :: 0 <= i < |ms| && 0 <= j < |BlocksOf(ms[i])| && !RoleValid(ms[i].role, BlocksOf(ms[i])[j])
  }

  method StripUnpairedToolBlocks(options: Options, providers: seq<string>) returns (r: Options)
    ensures options.provider !in providers || options.messages.None? ==> r == options
    ensures options.provider in providers && options.messages.Some? ==>
              r == options.(messages := Some(Stripped(options.messages.value)))
  {
    if options.provider !in providers || options.messages.None? || options.messages.value == [] { return options; }
    var ms := options.messages.value;
    var calls, results := ToolPairIds(RoleValidMessages(ms));
    var orphanCalls := calls - results;
    var orphanResults := results - calls;
    PipelineIsTrim(ms, ms, orphanCalls, orphanResults);
    if !HasRoleInvalidBlocks(ms) && orphanCalls == {} && orphanResults == {} {
      NothingToDrop(ms);
      return options;
    }
    r := options.(messages := Some(Cleaned(Kept(ms, orphanResults), orphanCalls, orphanResults)));
  }

  // ----- what stripping means: keep the role-valid blocks and whole results whose id is paired -----

  predicate Stays(role: Role, b: Block, paired: set<string>) {
    && RoleValid(role, b)
    && (b.ToolCall? ==> b.id in paired)
    && (b.ToolResult? ==> b.toolCallId in paired)
  }

  function TrimBlocks(role: Role, bs: seq<Block>, paired: set<string>): seq<Block> {
    if bs == [] then []
    else if Stays(role, bs[|bs| - 1], paired) then TrimBlocks(role, bs[..|bs| - 1], paired) + [bs[|bs| - 1]]
    else TrimBlocks(role, bs[..|bs| - 1], paired)
  }

  function TrimOne(m: Message, paired: set<string>): seq<Message> {
    if IsToolRoleResult(m) then (if m.toolCallId.value in paired then [m] else [])
    else [WithBlocks(m, TrimBlocks(m.role, BlocksOf(m), paired))]
  }

  function Trim(ms: seq<Message>, paired: set<string>): seq<Message> {
    if ms == [] then [] else Trim(ms[..|ms| - 1], paired) + TrimOne(ms[|ms| - 1], paired)
  }

  function Stripped(ms: seq<Message>): seq<Message> {
    Trim(ms, CallIds(ms) * ResultIds(ms))
  }

  lemma {:induction false} ValidIn(role: Role, bs: seq<Block>, b: Block)
    ensures b in ValidBlocks(role, bs) <==> b in bs && RoleValid(role, b)
  {
    if bs != [] {
      ValidIn(role, bs[..|bs| - 1], b);
      assert bs == bs[..|bs| - 1] + [bs[|bs| - 1]];
    }
  }

  lemma {:induction false} CallIn(bs: seq<Block>, b: Block)
    requires b in bs && b.ToolCall?
    ensures b.id in CallsIn(bs)
  {
    if b != bs[|bs| - 1] {
      assert bs == bs[..|bs| - 1] + [bs[|bs| - 1]];
      CallIn(bs[..|bs| - 1], b);
    }
  }

  lemma {:induction false} ResultIn(bs: seq<Block>, b: Block)
    requires b in bs && b.ToolResult?
    ensures b.toolCallId in ResultsIn(bs)
  {
    if b != bs[|bs| - 1] {
      assert bs == bs[..|bs| - 1] + [bs[|bs| - 1]];
      ResultIn(bs[..|bs| - 1], b);
    }
  }

  /** The ids a message contributes are among the ids of any history that contains it. */
  lemma {:induction false} IdsOfMember(ms: seq<Message>, m: Message)
    requires m in ms
    ensures CallsIn(ValidBlocks(m.role, BlocksOf(m))) <= CallIds(ms)
    ensures OwnResult(m) + ResultsIn(ValidBlocks(m.role, BlocksOf(m))) <= ResultIds(ms)
  {
    var n := |ms| - 1;
    var valid := RoleValidMessages(ms);
    assert valid[..|valid| - 1] == RoleValidMessages(ms[..n]);
    if m == ms[n] {
      assert BlocksOf(valid[|valid| - 1]) == ValidBlocks(m.role, BlocksOf(m));
    } else {
      assert ms == ms[..n] + [ms[n]];
      IdsOfMember(ms[..n], m);
    }
  }

  lemma {:induction false} StayingIsTrim(m: Message, bs: seq<Block>, calls: set<string>, results: set<string>)
    requires forall b :: b in bs && RoleValid(m.role, b) && b.ToolCall? ==> b.id in calls
    requires forall b :: b in bs && RoleValid(m.role, b) && b.ToolResult? ==> b.toolCallId in results
    ensures StayingBlocks(m.role, bs, calls - results, results - calls) == TrimBlocks(m.role, bs, calls * results)
  {
    if bs != [] {
      assert bs == bs[..|bs| - 1] + [bs[|bs| - 1]];
      StayingIsTrim(m, bs[..|bs| - 1], calls, results);
    }
  }

  lemma MemberIsTrimmed(ms: seq<Message>, m: Message)
    requires m in ms
    ensures StayingBlocks(m.role, BlocksOf(m), CallIds(ms) - ResultIds(ms), ResultIds(ms) - CallIds(ms)) == TrimBlocks(m.role, BlocksOf(m), CallIds(ms) * ResultIds(ms))
    ensures IsToolRoleResult(m) ==> m.toolCallId.value in ResultIds(ms)
  {
    var bs := BlocksOf(m);
    IdsOfMember(ms, m);
    assert IsToolRoleResult(m) ==> m.toolCallId.value in OwnResult(m);
    forall b | b in bs && RoleValid(m.role, b) && b.ToolCall? ensures b.id in CallIds(ms) {
      ValidIn(m.role, bs, b);
      CallIn(ValidBlocks(m.role, bs), b);
    }
    forall b | b in bs && RoleValid(m.role, b) && b.ToolResult? ensures b.toolCallId in ResultIds(ms) {
      ValidIn(m.role, bs, b);
      ResultIn(ValidBlocks(m.role, bs), b);
    }
    StayingIsTrim(m, bs, CallIds(ms), ResultIds(ms));
  }

  /** Dropping orphans by the two filters is keeping the paired ids. */
  lemma {:induction false} PipelineIsTrim(ms: seq<Message>, prefix: seq<Message>, orphanCalls: set<string>, orphanResults: set<string>)
    requires orphanCalls == CallIds(ms) - ResultIds(ms) && orphanResults == ResultIds(ms) - CallIds(ms)
    requires prefix <= ms
    ensures Cleaned(Kept(prefix, orphanResults), orphanCalls, orphanResults) == Trim(prefix, CallIds(ms) * ResultIds(ms))
    decreases |prefix|
  {
    if prefix != [] {
      var front, m := prefix[..|prefix| - 1], prefix[|prefix| - 1];
      PipelineIsTrim(ms, front, orphanCalls, orphanResults);
      assert m == ms[|prefix| - 1];
      MemberIsTrimmed(ms, m);
      var k := Kept(prefix, orphanResults);
      if IsToolRoleResult(m) && m.toolCallId.value in orphanResults {
        assert k == Kept(front, orphanResults);
      } else {
        assert k[..|k| - 1] == Kept(front, orphanResults) && k[|k| - 1] == m;
      }
    }
  }

  // ----- ids after stripping -----

  lemma {:induction false} SetsOfAppend(x: seq<Message>, y: seq<Message>)
    ensures CallIds(x + y) == CallIds(x) + CallIds(y)
    ensures ResultIds(x + y) == ResultIds(x) + ResultIds(y)
    decreases |y|
  {
    if y == [] {
      assert x + y == x;
    } else {
      var n := |y| - 1;
      assert (x + y)[..|x + y| - 1] == x + y[..n];
      SetsOfAppend(x, y[..n]);
      IdsOfLast(x + y);
      IdsOfLast(y);
    }
  }

  lemma IdsOfLast(ms: seq<Message>)
    requires ms != []
    ensures var m := ms[|ms| - 1];
      && CallIds(ms) == CallIds(ms[..|ms| - 1]) + CallsIn(ValidBlocks(m.role, BlocksOf(m)))
      && ResultIds(ms) == ResultIds(ms[..|ms| - 1]) + (OwnResult(m) + ResultsIn(ValidBlocks(m.role, BlocksOf(m))))
  {
    var n := |ms| - 1;
    var valid := RoleValidMessages(ms);
    assert valid[..|valid| - 1] == RoleValidMessages(ms[..n]);
    assert BlocksOf(valid[|valid| - 1]) == ValidBlocks(ms[n].role, BlocksOf(ms[n]));
  }

  /** Trimming blocks leaves role-valid ones only and intersects their ids with the paired ones. */
  lemma {:induction false} TrimmedIds(role: Role, bs: seq<Block>, paired: set<string>)
    ensures ValidBlocks(role, TrimBlocks(role, bs, paired)) == TrimBlocks(role, bs, paired)
    ensures CallsIn(TrimBlocks(role, bs, paired)) == CallsIn(ValidBlocks(role, bs)) * paired
    ensures ResultsIn(TrimBlocks(role, bs, paired)) == ResultsIn(ValidBlocks(role, bs)) * paired
  {
    if bs != [] {
      var front, b := bs[..|bs| - 1], bs[|bs| - 1];
      var t, v := TrimBlocks(role, front, paired), ValidBlocks(role, front);
      TrimmedIds(role, front, paired);
      AppendBlock(role, t, b);
      AppendBlock(role, v, b);
      if RoleValid(role, b) {
        IdsMeet(CallsIn(v), if b.ToolCall? then {b.id} else {}, paired);
        IdsMeet(ResultsIn(v), if b.ToolResult? then {b.toolCallId} else {}, paired);
      }
    }
  }

  lemma AppendBlock(role: Role, x: seq<Block>, b: Block)
    ensures CallsIn(x + [b]) == CallsIn(x) + (if b.ToolCall? then {b.id} else {})
    ensures ResultsIn(x + [b]) == ResultsIn(x) + (if b.ToolResult? then {b.toolCallId} else {})
    ensures ValidBlocks(role, x + [b]) == if RoleValid(role, b) then ValidBlocks(role, x) + [b] else ValidBlocks(role, x)
  {
    assert (x + [b])[..|x|] == x;
  }

  lemma IdsMeet(ids: set<string>, more: set<string>, paired: set<string>)
    ensures (ids + more) * paired == ids * paired + more * paired
    ensures more <= paired ==> more * paired == more
    ensures more !! paired ==> (ids + more) * paired == ids * paired
  {
  }

  lemma NoBlocks(role: Role)
    ensures ValidBlocks(role, []) == []
  {
  }

  /** Whole-result messages carry nested blocks, none of which is role-valid. */
  lemma {:induction false} NestedAreInvalid(bs: seq<Block>)
    ensures CallsIn(ValidBlocks(Tool, bs)) == {} && ResultsIn(ValidBlocks(Tool, bs)) == {}
  {
    if bs != [] {
      NestedAreInvalid(bs[..|bs| - 1]);
      var v := ValidBlocks(Tool, bs);
      if RoleValid(Tool, bs[|bs| - 1]) { assert v[..|v| - 1] == ValidBlocks(Tool, bs[..|bs| - 1]) && v[|v| - 1] == bs[|bs| - 1]; }
    }
  }

  lemma TrimOneIds(m: Message, paired: set<string>)
    ensures CallIds(TrimOne(m, paired)) == CallsIn(ValidBlocks(m.role, BlocksOf(m))) * paired
    ensures ResultIds(TrimOne(m, paired)) == (OwnResult(m) + ResultsIn(ValidBlocks(m.role, BlocksOf(m)))) * paired
  {
    TrimmedIds(m.role, BlocksOf(m), paired);
    NestedAreInvalid(BlocksOf(m));
    NoBlocks(m.role);
    var t := TrimOne(m, paired);
    if t != [] {
      IdsOfLast(t);
      assert t[..|t| - 1] == [];
    }
  }

  lemma {:induction false} TrimIds(ms: seq<Message>, paired: set<string>)
    ensures CallIds(Trim(ms, paired)) == CallIds(ms) * paired
    ensures ResultIds(Trim(ms, paired)) == ResultIds(ms) * paired
  {
    if ms != [] {
      var front, m := ms[..|ms| - 1], ms[|ms| - 1];
      TrimIds(front, paired);
      IdsOfLast(ms);
      TrimOneIds(m, paired);
      SetsOfAppend(Trim(front, paired), TrimOne(m, paired));
      IdsMeet(CallIds(front), CallsIn(ValidBlocks(m.role, BlocksOf(m))), paired);
      IdsMeet(ResultIds(front), OwnResult(m) + ResultsIn(ValidBlocks(m.role, BlocksOf(m))), paired);
    } else {
      IdsMeet({}, {}, paired);
    }
  }

  /** After stripping, the calls and the results name the same ids: exactly those that were on both sides before. */
  lemma StrippedIsBalanced(ms: seq<Message>)
    ensures CallIds(Stripped(ms)) == ResultIds(Stripped(ms)) == CallIds(ms) * ResultIds(ms)
  {
    TrimIds(ms, CallIds(ms) * ResultIds(ms));
  }

  // ----- nothing more is dropped than has to be -----

  /** Blocks left after deleting some, the rest in order. */
  ghost predicate SubBlocks(x: seq<Block>, y: seq<Block>)
    decreases |y|
  {
    if y == [] then x == []
    else
      || SubBlocks(x, y[..|y| - 1])
      || (x != [] && x[|x| - 1] == y[|y| - 1] && SubBlocks(x[..|x| - 1], y[..|y| - 1]))
  }

  ghost predicate SubMessage(x: Message, y: Message) {
    if IsToolRoleResult(y) || y.content.Text? then x == y
    else x.content.Blocks? && x == y.(content := x.content) && SubBlocks(x.content.blocks, y.content.blocks)
  }

  /** A history got from another by deleting blocks, and whole results, the rest in order. */
  ghost predicate SubHistory(x: seq<Message>, y: seq<Message>)
    decreases |y|
  {
    if y == [] then x == []
    else
      || (IsToolRoleResult(y[|y| - 1]) && SubHistory(x, y[..|y| - 1]))
      || (x != [] && SubMessage(x[|x| - 1], y[|y| - 1]) && SubHistory(x[..|x| - 1], y[..|y| - 1]))
  }

  ghost predicate OnlyValidBlocks(m: Message) {
    IsToolRoleResult(m) || forall b :: b in BlocksOf(m) ==> RoleValid(m.role, b)
  }

  /** What a provider accepts: outside whole results every block is role-valid, and calls and results name the same ids. */
  ghost predicate Clean(ms: seq<Message>) {
    && (forall m :: m in ms ==> OnlyValidBlocks(m))
    && CallIds(ms) == ResultIds(ms)
  }

  lemma {:induction false} TrimBlocksIn(role: Role, bs: seq<Block>, paired: set<string>, b: Block)
    requires b in TrimBlocks(role, bs, paired)
    ensures Stays(role, b, paired)
  {
    if b in TrimBlocks(role, bs[..|bs| - 1], paired) { TrimBlocksIn(role, bs[..|bs| - 1], paired, b); }
  }

  lemma {:induction false} SubBlocksTrim(x: seq<Block>, role: Role, bs: seq<Block>, paired: set<string>)
    requires SubBlocks(x, bs) && forall b :: b in x ==> Stays(role, b, paired)
    ensures SubBlocks(x, TrimBlocks(role, bs, paired))
    decreases |bs|
  {
    if bs != [] {
      var front, b := bs[..|bs| - 1], bs[|bs| - 1];
      var t := TrimBlocks(role, bs, paired);
      if Stays(role, b, paired) { assert t[..|t| - 1] == TrimBlocks(role, front, paired) && t[|t| - 1] == b; }
      if SubBlocks(x, front) {
        SubBlocksTrim(x, role, front, paired);
      } else {
        assert x[|x| - 1] in x;
        SubBlocksTrim(x[..|x| - 1], role, front, paired);
      }
    }
  }

  lemma {:induction false} TrimIsSubBlocks(role: Role, bs: seq<Block>, paired: set<string>)
    ensures SubBlocks(TrimBlocks(role, bs, paired), bs)
  {
    if bs != [] {
      var t := TrimBlocks(role, bs, paired);
      TrimIsSubBlocks(role, bs[..|bs| - 1], paired);
      if Stays(role, bs[|bs| - 1], paired) { assert t[..|t| - 1] == TrimBlocks(role, bs[..|bs| - 1], paired); }
    }
  }

  lemma {:induction false} TrimIsSubHistory(ms: seq<Message>, paired: set<string>)
    ensures SubHistory(Trim(ms, paired), ms)
    ensures forall m :: m in Trim(ms, paired) ==> OnlyValidBlocks(m)
  {
    if ms != [] {
      var front, m := ms[..|ms| - 1], ms[|ms| - 1];
      TrimIsSubHistory(front, paired);
      TrimIsSubBlocks(m.role, BlocksOf(m), paired);
      var t := Trim(ms, paired);
      if TrimOne(m, paired) != [] {
        assert t[..|t| - 1] == Trim(front, paired) && t[|t| - 1] == TrimOne(m, paired)[0];
        forall b | b in TrimBlocks(m.role, BlocksOf(m), paired) ensures RoleValid(m.role, b) {
          TrimBlocksIn(m.role, BlocksOf(m), paired, b);
        }
      } else {
        assert t == Trim(front, paired);
      }
    }
  }

  /** A message whose ids are all paired survives inside the trimmed one. */
  lemma SubMessageTrim(x: Message, m: Message, paired: set<string>)
    requires SubMessage(x, m) && OnlyValidBlocks(x)
    requires CallsIn(ValidBlocks(x.role, BlocksOf(x))) <= paired
    requires OwnResult(x) + ResultsIn(ValidBlocks(x.role, BlocksOf(x))) <= paired
    ensures TrimOne(m, paired) != [] && SubMessage(x, TrimOne(m, paired)[0])
  {
    if IsToolRoleResult(m) {
      assert m.toolCallId.value in OwnResult(x);
    } else if m.content.Blocks? {
      forall b | b in BlocksOf(x) ensures Stays(m.role, b, paired) {
        ValidIn(x.role, BlocksOf(x), b);
        if b.ToolCall? { CallIn(ValidBlocks(x.role, BlocksOf(x)), b); }
        if b.ToolResult? { ResultIn(ValidBlocks(x.role, BlocksOf(x)), b); }
      }
      SubBlocksTrim(BlocksOf(x), m.role, BlocksOf(m), paired);
    }
  }

  lemma {:induction false} SubHistoryTrim(x: seq<Message>, ms: seq<Message>, paired: set<string>)
    requires SubHistory(x, ms) && CallIds(x) <= paired && ResultIds(x) <= paired
    requires forall m :: m in x ==> OnlyValidBlocks(m)
    ensures SubHistory(x, Trim(ms, paired))
    decreases |ms|
  {
    if ms != [] {
      var front, m := ms[..|ms| - 1], ms[|ms| - 1];
      var t := Trim(ms, paired);
      if TrimOne(m, paired) != [] { assert t[..|t| - 1] == Trim(front, paired) && t[|t| - 1] == TrimOne(m, paired)[0]; }
      if IsToolRoleResult(m) && SubHistory(x, front) {
        SubHistoryTrim(x, front, paired);
        if TrimOne(m, paired) == [] { assert t == Trim(front, paired); }
      } else {
        var last := x[|x| - 1];
        IdsOfLast(x);
        assert last in x;
        SubMessageTrim(last, m, paired);
        SubHistoryTrim(x[..|x| - 1], front, paired);
      }
    }
  }

  lemma {:induction false} SubBlocksIds(role: Role, x: seq<Block>, y: seq<Block>)
    requires SubBlocks(x, y)
    ensures CallsIn(ValidBlocks(role, x)) <= CallsIn(ValidBlocks(role, y))
    ensures ResultsIn(ValidBlocks(role, x)) <= ResultsIn(ValidBlocks(role, y))
    decreases |y|
  {
    if y != [] {
      var vy := ValidBlocks(role, y);
      if RoleValid(role, y[|y| - 1]) { assert vy[..|vy| - 1] == ValidBlocks(role, y[..|y| - 1]) && vy[|vy| - 1] == y[|y| - 1]; }
      if SubBlocks(x, y[..|y| - 1]) {
        SubBlocksIds(role, x, y[..|y| - 1]);
      } else {
        var vx := ValidBlocks(role, x);
        SubBlocksIds(role, x[..|x| - 1], y[..|y| - 1]);
        if RoleValid(role, x[|x| - 1]) { assert vx[..|vx| - 1] == ValidBlocks(role, x[..|x| - 1]) && vx[|vx| - 1] == x[|x| - 1]; }
      }
    }
  }

  lemma {:induction false} SubHistoryIds(x: seq<Message>, y: seq<Message>)
    requires SubHistory(x, y)
    ensures CallIds(x) <= CallIds(y) && ResultIds(x) <= ResultIds(y)
    decreases |y|
  {
    if y != [] {
      IdsOfLast(y);
      if IsToolRoleResult(y[|y| - 1]) && SubHistory(x, y[..|y| - 1]) {
        SubHistoryIds(x, y[..|y| - 1]);
      } else {
        IdsOfLast(x);
        SubHistoryIds(x[..|x| - 1], y[..|y| - 1]);
        var a, b := x[|x| - 1], y[|y| - 1];
        if a != b { SubBlocksIds(b.role, BlocksOf(a), BlocksOf(b)); }
      }
    }
  }

  /**
   * Stripping gives the greatest clean part of the history: the result is a clean part, and every clean part is contained
   * in it. So only role-invalid or unpaired entries go, and the rest keeps its order.
   */
  lemma StrippedIsGreatestCleanPart(ms: seq<Message>, x: seq<Message>)
    ensures SubHistory(Stripped(ms), ms) && Clean(Stripped(ms))
    ensures SubHistory(x, ms) && Clean(x) ==> SubHistory(x, Stripped(ms))
  {
    StrippedIsBalanced(ms);
    TrimIsSubHistory(ms, CallIds(ms) * ResultIds(ms));
    if SubHistory(x, ms) && Clean(x) {
      SubHistoryIds(x, ms);
      SubHistoryTrim(x, ms, CallIds(ms) * ResultIds(ms));
    }
  }

  // ----- the same in terms of roles and ids -----

  predicate HasCall(bs: seq<Block>, id: string) { exists j :: 0 <= j < |bs| && bs[j].ToolCall? && bs[j].id == id }
  predicate HasResult(bs: seq<Block>, id: string) { exists j :: 0 <= j < |bs| && bs[j].ToolResult? && bs[j].toolCallId == id }

  /** An assistant message holds the call. */
  predicate IsCalled(ms: seq<Message>, id: string) {
    exists i :: 0 <= i < |ms| && ms[i].role == Assistant && HasCall(BlocksOf(ms[i]), id)
  }

  /** A user message holds the result, or a tool message is the result. */
  predicate IsAnswered(ms: seq<Message>, id: string) {
    exists i :: 0 <= i < |ms| && ((ms[i].role == User && HasResult(BlocksOf(ms[i]), id)) || (ms[i].role == Tool && ms[i].toolCallId == Some(id)))
  }

  lemma LastBlock(bs: seq<Block>, id: string)
    requires bs != []
    ensures HasCall(bs, id) <==> HasCall(bs[..|bs| - 1], id) || (bs[|bs| - 1].ToolCall? && bs[|bs| - 1].id == id)
    ensures HasResult(bs, id) <==> HasResult(bs[..|bs| - 1], id) || (bs[|bs| - 1].ToolResult? && bs[|bs| - 1].toolCallId == id)
  {
    var front := bs[..|bs| - 1];
    assert forall j :: 0 <= j < |front| ==> bs[j] == front[j];
  }

  lemma {:induction false} ValidIdsExactly(role: Role, bs: seq<Block>, id: string)
    ensures id in CallsIn(ValidBlocks(role, bs)) <==> role == Assistant && HasCall(bs, id)
    ensures id in ResultsIn(ValidBlocks(role, bs)) <==> role == User && HasResult(bs, id)
  {
    if bs != [] {
      ValidIdsExactly(role, bs[..|bs| - 1], id);
      LastBlock(bs, id);
      AppendBlock(role, ValidBlocks(role, bs[..|bs| - 1]), bs[|bs| - 1]);
    }
  }

  lemma LastMessage(ms: seq<Message>, id: string)
    requires ms != []
    ensures var m := ms[|ms| - 1];
      && (IsCalled(ms, id) <==> IsCalled(ms[..|ms| - 1], id) || (m.role == Assistant && HasCall(BlocksOf(m), id)))
      && (IsAnswered(ms, id) <==>
            || IsAnswered(ms[..|ms| - 1], id)
            || (m.role == User && HasResult(BlocksOf(m), id)) || (m.role == Tool && m.toolCallId == Some(id)))
  {
    var front := ms[..|ms| - 1];
    assert forall i :: 0 <= i < |front| ==> ms[i] == front[i];
  }

  /** The ids that count: calls of assistant messages, results of user and tool messages. */
  lemma {:induction false} IdsExactly(ms: seq<Message>, id: string)
    ensures id in CallIds(ms) <==> IsCalled(ms, id)
    ensures id in ResultIds(ms) <==> IsAnswered(ms, id)
  {
    if ms != [] {
      var m := ms[|ms| - 1];
      IdsExactly(ms[..|ms| - 1], id);
      IdsOfLast(ms);
      ValidIdsExactly(m.role, BlocksOf(m), id);
      LastMessage(ms, id);
    }
  }

  ghost predicate RolesFit(ms: seq<Message>) {
    forall m, b ::
      m in ms && !(m.role == Tool && m.toolCallId.Some?) && b in BlocksOf(m) ==>
        (b.ToolCall? ==> m.role == Assistant) && (b.ToolResult? ==> m.role == User)
  }

  /**
   * What clean means to a provider: outside whole results, calls are only in assistant and results only in user messages,
   * and whatever is called is answered and the other way round.
   */
  lemma CleanExactly(ms: seq<Message>)
    ensures Clean(ms) <==> RolesFit(ms) && forall id :: IsCalled(ms, id) <==> IsAnswered(ms, id)
  {
    forall id ensures (id in CallIds(ms) <==> IsCalled(ms, id)) && (id in ResultIds(ms) <==> IsAnswered(ms, id)) { IdsExactly(ms, id); }
    if forall id :: IsCalled(ms, id) <==> IsAnswered(ms, id) {
      assert CallIds(ms) == ResultIds(ms);
    }
    assert (forall m :: m in ms ==> OnlyValidBlocks(m)) <==> RolesFit(ms);
  }

  // ----- idempotence -----

  lemma {:induction false} TrimBlocksAll(role: Role, bs: seq<Block>, paired: set<string>)
    requires forall b :: b in bs ==> Stays(role, b, paired)
    ensures TrimBlocks(role, bs, paired) == bs
  {
    if bs != [] {
      assert bs == bs[..|bs| - 1] + [bs[|bs| - 1]];
      TrimBlocksAll(role, bs[..|bs| - 1], paired);
    }
  }

  lemma TrimOneAll(ms: seq<Message>, m: Message)
    requires Clean(ms) && m in ms
    ensures TrimOne(m, CallIds(ms) * ResultIds(ms)) == [m]
  {
    IdsOfMember(ms, m);
    var bs := BlocksOf(m);
    if IsToolRoleResult(m) {
      assert m.toolCallId.value in OwnResult(m);
    } else {
      assert OnlyValidBlocks(m);
      forall b | b in bs ensures Stays(m.role, b, CallIds(ms) * ResultIds(ms)) {
        ValidIn(m.role, bs, b);
        if b.ToolCall? { CallIn(ValidBlocks(m.role, bs), b); }
        if b.ToolResult? { ResultIn(ValidBlocks(m.role, bs), b); }
      }
      TrimBlocksAll(m.role, bs, CallIds(ms) * ResultIds(ms));
    }
  }

  lemma {:induction false} TrimAll(ms: seq<Message>, prefix: seq<Message>)
    requires Clean(ms) && prefix <= ms
    ensures Trim(prefix, CallIds(ms) * ResultIds(ms)) == prefix
    decreases |prefix|
  {
    if prefix != [] {
      var front, m := prefix[..|prefix| - 1], prefix[|prefix| - 1];
      var paired := CallIds(ms) * ResultIds(ms);
      TrimAll(ms, front);
      assert m == ms[|prefix| - 1];
      TrimOneAll(ms, m);
      assert Trim(prefix, paired) == Trim(front, paired) + TrimOne(m, paired) == front + [m] == prefix;
    }
  }

  /** A history is left alone exactly when it is clean already. */
  lemma UnchangedIffClean(ms: seq<Message>)
    ensures Stripped(ms) == ms <==> Clean(ms)
  {
    StrippedIsGreatestCleanPart(ms, []);
    if Clean(ms) { TrimAll(ms, ms); }
  }

  lemma StripIsIdempotent(ms: seq<Message>)
    ensures Stripped(Stripped(ms)) == Stripped(ms)
  {
    StrippedIsGreatestCleanPart(ms, []);
    UnchangedIffClean(Stripped(ms));
  }

  /** The shortcut of the pipeline: nothing role-invalid and no orphans means there is nothing to drop. */
  lemma NothingToDrop(ms: seq<Message>)
    requires !HasRoleInvalidBlocks(ms) && CallIds(ms) - ResultIds(ms) == {} && ResultIds(ms) - CallIds(ms) == {}
    ensures Stripped(ms) == ms
  {
    forall m | m in ms ensures OnlyValidBlocks(m) {
      var i :| 0 <= i < |ms| && ms[i] == m;
      forall b | b in BlocksOf(m) ensures RoleValid(m.role, b) {
        var j :| 0 <= j < |BlocksOf(m)| && BlocksOf(m)[j] == b;
        assert BlocksOf(ms[i])[j] == b;
      }
    }
    SubsetBothWays(CallIds(ms), ResultIds(ms));
    UnchangedIffClean(ms);
  }

  lemma SubsetBothWays(a: set<string>, b: set<string>)
    requires a - b == {} && b - a == {}
    ensures a == b
  {
    forall x | x in a ensures x in b { assert x !in a - b; }
    forall x | x in b ensures x in a { assert x !in b - a; }
  }
}
