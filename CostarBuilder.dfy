/**
 * The CO-STAR prompt builder: six optional text fields (context, objective, style, tone,
 * audience, response) set by chained `add_*` calls, and `build`, which checks the three
 * mandatory fields and appends one headed block per field in a fixed order.
 */
module CostarBuilder {
  import opened Wrappers

  /** Why `build` raises; the mandatory fields are checked in this order. */
  datatype BuildError = MissingContext | MissingObjective | MissingResponse

  /** Python truthiness of an optional string field: unset (`None`) and `''` are both falsy. */
  predicate Given(field: Option<string>) {
    field.Some? && field.value != ""
  }

  /** A block as the f-strings lay it out: newline, indented `# NAME #`, blank line, indented text, blank line, indent. */
  function Block(indent: string, heading: string, text: string): string {
    "\n" + indent + "# " + heading + " #\n\n" + indent + text + "\n\n" + indent
  }

  const MAIN_INDENT: string := "    "
  const OPTIONAL_INDENT: string := "      "

  /** The closing RESPONSE block ends with a single newline and the indent. */
  function ResponseBlock(text: string): string {
    "\n" + MAIN_INDENT + "# RESPONSE #\n\n" + MAIN_INDENT + text + "\n" + MAIN_INDENT
  }

  /** An optional block appears only when its field is given. */
  function OptionalBlock(heading: string, field: Option<string>): (r: string)
    ensures Given(field) ==> r == Block(OPTIONAL_INDENT, heading, field.value)
    ensures !Given(field) ==> r == ""
  {
    if Given(field) then Block(OPTIONAL_INDENT, heading, field.value) else ""
  }

  /** The three optional blocks, in the order STYLE, TONE, AUDIENCE. */
  function Middle(style: Option<string>, tone: Option<string>, audience: Option<string>): string {
    OptionalBlock("STYLE", style) + OptionalBlock("TONE", tone) + OptionalBlock("AUDIENCE", audience)
  }

  /** The text `build` returns for the given fields, or the first missing mandatory field. */
  function Prompt(context: Option<string>, objective: Option<string>, style: Option<string>,
                  tone: Option<string>, audience: Option<string>, response: Option<string>): (r: Result<string, BuildError>)
    ensures r.Failure? <==> !Given(context) || !Given(objective) || !Given(response)
    ensures !Given(context) ==> r == Failure(MissingContext)
    ensures Given(context) && !Given(objective) ==> r == Failure(MissingObjective)
    ensures Given(context) && Given(objective) && !Given(response) ==> r == Failure(MissingResponse)
  {
    if !Given(context) then Failure(MissingContext)
    else if !Given(objective) then Failure(MissingObjective)
    else if !Given(response) then Failure(MissingResponse)
    else
      Success(Block(MAIN_INDENT, "CONTEXT", context.value) + Block(MAIN_INDENT, "OBJECTIVE", objective.value)
              + Middle(style, tone, audience) + ResponseBlock(response.value))
  }

  /** The builder object; each field is `None` until its `add_*` method is called. */
  class CostarPromptBuilder {
    var context: Option<string>
    var objective: Option<string>
    var style: Option<string>
    var tone: Option<string>
    var audience: Option<string>
    var response: Option<string>

    constructor()
      ensures context == None && objective == None && style == None
      ensures tone == None && audience == None && response == None
    {
      context := None;
      objective := None;
      style := None;
      tone := None;
      audience := None;
      response := None;
    }

    method AddContext(text: string) returns (b: CostarPromptBuilder)
      modifies this
      ensures b == this && context == Some(text)
      ensures objective == old(objective) && style == old(style) && tone == old(tone)
      ensures audience == old(audience) && response == old(response)
    {
      context := Some(text);
      b := this;
    }

    method AddObjective(text: string) returns (b: CostarPromptBuilder)
      modifies this
      ensures b == this && objective == Some(text)
      ensures context == old(context) && style == old(style) && tone == old(tone)
      ensures audience == old(audience) && response == old(response)
    {
      objective := Some(text);
      b := this;
    }

    method AddStyle(text: string) returns (b: CostarPromptBuilder)
      modifies this
      ensures b == this && style == Some(text)
      ensures context == old(context) && objective == old(objective) && tone == old(tone)
      ensures audience == old(audience) && response == old(response)
    {
      style := Some(text);
      b := this;
    }

    method AddTone(text: string) returns (b: CostarPromptBuilder)
      modifies this
      ensures b == this && tone == Some(text)
      ensures context == old(context) && objective == old(objective) && style == old(style)
      ensures audience == old(audience) && response == old(response)
    {
      tone := Some(text);
      b := this;
    }

    method AddAudience(text: string) returns (b: CostarPromptBuilder)
      modifies this
      ensures b == this && audience == Some(text)
      ensures context == old(context) && objective == old(objective) && style == old(style)
      ensures tone == old(tone) && response == old(response)
    {
      audience := Some(text);
      b := this;
    }

    method AddResponse(text: string) returns (b: CostarPromptBuilder)
      modifies this
      ensures b == this && response == Some(text)
      ensures context == old(context) && objective == old(objective) && style == old(style)
      ensures tone == old(tone) && audience == old(audience)
    {
      response := Some(text);
      b := this;
    }

    /**
     * `build`: raises on the first missing mandatory field, otherwise appends the blocks one
     * by one. It changes no field, so building twice gives the same result.
     */
    method Build() returns (r: Result<string, BuildError>)
      ensures r == Prompt(context, objective, style, tone, audience, response)
    {
      if !Given(context) {
        return Failure(MissingContext);
      }
      if !Given(objective) {
        return Failure(MissingObjective);
      }
      if !Given(response) {
        return Failure(MissingResponse);
      }
      var prompt := "";
      var contextBlock := Block(MAIN_INDENT, "CONTEXT", context.value);
      prompt := prompt + contextBlock;
      assert prompt == contextBlock;
      prompt := prompt + Block(MAIN_INDENT, "OBJECTIVE", objective.value);
      ghost var head := prompt;
      if Given(style) {
        prompt := prompt + Block(OPTIONAL_INDENT, "STYLE", style.value);
      }
      if Given(tone) {
        prompt := prompt + Block(OPTIONAL_INDENT, "TONE", tone.value);
      }
      if Given(audience) {
        prompt := prompt + Block(OPTIONAL_INDENT, "AUDIENCE", audience.value);
      }
      AppendOptional(head, style, tone, audience, prompt);
      prompt := prompt + ResponseBlock(response.value);
      r := Success(prompt);
    }
  }

  /** The three conditional appends of `build` add exactly the middle blocks. */
  lemma {:induction false} AppendOptional(head: string, style: Option<string>, tone: Option<string>, audience: Option<string>, prompt: string)
    requires var s := if Given(style) then head + Block(OPTIONAL_INDENT, "STYLE", style.value) else head;
      var t := if Given(tone) then s + Block(OPTIONAL_INDENT, "TONE", tone.value) else s;
      prompt == if Given(audience) then t + Block(OPTIONAL_INDENT, "AUDIENCE", audience.value) else t
    ensures prompt == head + Middle(style, tone, audience)
  {
    var sb := OptionalBlock("STYLE", style);
    var tb := OptionalBlock("TONE", tone);
    var ab := OptionalBlock("AUDIENCE", audience);
    assert prompt == head + sb + tb + ab;
  }

  /** Where the text of a block starts: after the newline, the indent, the heading line and the blank line. */
  lemma {:induction false} BlockHoldsText(indent: string, heading: string, text: string)
    ensures var b := Block(indent, heading, text);
      var at := |indent| * 2 + |heading| + 7;
      && |b| == at + |text| + 2 + |indent|
      && b[at..at + |text|] == text
  {
    var b := Block(indent, heading, text);
    var head := "\n" + indent + "# " + heading + " #\n\n" + indent;
    assert |head| == |indent| * 2 + |heading| + 7;
    assert b == head + text + ("\n\n" + indent);
    assert (head + text + ("\n\n" + indent))[|head|..|head| + |text|] == text;
  }

  /**
   * A successful prompt starts with the CONTEXT block holding the context verbatim, followed by
   * the OBJECTIVE block, and ends with the RESPONSE block holding the response verbatim.
   */
  lemma {:induction false} PromptFrame(context: string, objective: string, style: Option<string>,
                                       tone: Option<string>, audience: Option<string>, response: string)
    requires context != "" && objective != "" && response != ""
    ensures var r := Prompt(Some(context), Some(objective), style, tone, audience, Some(response));
      var head := Block(MAIN_INDENT, "CONTEXT", context) + Block(MAIN_INDENT, "OBJECTIVE", objective);
      var tail := ResponseBlock(response);
      && r.Success?
      && |r.value| == |head| + |Middle(style, tone, audience)| + |tail|
      && r.value[..|head|] == head
      && r.value[|r.value| - |tail|..] == tail
      && r.value[22..22 + |context|] == context
      && r.value[|r.value| - |response| - 5..|r.value| - 5] == response
  {
    var cb := Block(MAIN_INDENT, "CONTEXT", context);
    var ob := Block(MAIN_INDENT, "OBJECTIVE", objective);
    var mid := Middle(style, tone, audience);
    var tail := ResponseBlock(response);
    assert Prompt(Some(context), Some(objective), style, tone, audience, Some(response)) == Success(cb + ob + mid + tail);
    BlockHoldsText(MAIN_INDENT, "CONTEXT", context);
    ResponseBlockHoldsText(response);
    FrameSlices(cb, ob, mid, tail, context, response);
  }

  /** The slices of four consecutive parts that the prompt's frame is made of. */
  lemma FrameSlices(cb: string, ob: string, mid: string, tail: string, context: string, response: string)
    requires 22 + |context| <= |cb| && cb[22..22 + |context|] == context
    requires |tail| == |response| + 28 && tail[|tail| - |response| - 5..|tail| - 5] == response
    ensures var p := cb + ob + mid + tail;
      && |p| == |cb + ob| + |mid| + |tail|
      && p[..|cb + ob|] == cb + ob
      && p[|p| - |tail|..] == tail
      && p[22..22 + |context|] == context
      && p[|p| - |response| - 5..|p| - 5] == response
  {
    var head := cb + ob;
    var p := head + mid + tail;
    assert p == head + (mid + tail);
    SliceOfFront(cb, ob, 22, 22 + |context|);
    SliceOfFront(head, mid + tail, 0, |head|);
    SliceOfFront(head, mid + tail, 22, 22 + |context|);
    SliceOfBack(head + mid, tail, |p| - |tail|, |p|);
    SliceOfBack(head + mid, tail, |p| - |response| - 5, |p| - 5);
  }

  /** The response stands just before the closing newline and indent of its block. */
  lemma ResponseBlockHoldsText(response: string)
    ensures var tail := ResponseBlock(response);
      |tail| == |response| + 28 && tail[|tail| - |response| - 5..|tail| - 5] == response
  {
    var tailHead := "\n" + MAIN_INDENT + "# RESPONSE #\n\n" + MAIN_INDENT;
    var tail := ResponseBlock(response);
    assert |tailHead| == 23;
    assert tail == tailHead + response + ("\n" + MAIN_INDENT);
    SliceOfFront(tailHead + response, "\n" + MAIN_INDENT, 23, 23 + |response|);
    SliceOfBack(tailHead, response, 23, 23 + |response|);
  }

  /** A slice within the front part of a concatenation is a slice of that part. */
  lemma SliceOfFront(a: string, b: string, i: nat, j: nat)
    requires i <= j <= |a|
    ensures (a + b)[i..j] == a[i..j]
  {
    assert forall k :: 0 <= k < j - i ==> (a + b)[i..j][k] == a[i..j][k];
  }

  /** A slice within the back part of a concatenation is a slice of that part. */
  lemma SliceOfBack(a: string, b: string, i: nat, j: nat)
    requires |a| <= i <= j <= |a| + |b|
    ensures (a + b)[i..j] == b[i - |a|..j - |a|]
  {
    assert forall k :: 0 <= k < j - i ==> (a + b)[i..j][k] == b[i - |a|..j - |a|][k];
  }

  /**
   * Setting an optional field inserts exactly its block into the prompt, between the blocks
   * before it and the blocks after it: the optional sections appear iff they are given, and in
   * the order STYLE, TONE, AUDIENCE.
   */
  lemma {:induction false} OptionalBlocksInOrder(style: Option<string>, tone: Option<string>, audience: Option<string>)
    ensures Middle(style, tone, audience)
         == Middle(style, None, None) + Middle(None, tone, None) + Middle(None, None, audience)
    ensures Given(style) ==> Middle(style, None, None) == Block(OPTIONAL_INDENT, "STYLE", style.value)
    ensures Given(tone) ==> Middle(None, tone, None) == Block(OPTIONAL_INDENT, "TONE", tone.value)
    ensures Given(audience) ==> Middle(None, None, audience) == Block(OPTIONAL_INDENT, "AUDIENCE", audience.value)
    ensures Middle(None, None, None) == ""
  {
    var s := OptionalBlock("STYLE", style);
    var t := OptionalBlock("TONE", tone);
    var a := OptionalBlock("AUDIENCE", audience);
    assert Middle(style, None, None) == s + "" + "" == s;
    assert Middle(None, tone, None) == "" + t + "" == t;
    assert Middle(None, None, audience) == "" + "" + a == a;
  }

  /** An unset field and a field set to the empty string build the same prompt. */
  lemma {:induction false} EmptyTextIsUnset(context: Option<string>, objective: Option<string>, style: Option<string>,
                                            tone: Option<string>, audience: Option<string>, response: Option<string>)
    ensures Prompt(context, objective, Some(""), tone, audience, response) == Prompt(context, objective, None, tone, audience, response)
    ensures Prompt(context, objective, style, Some(""), audience, response) == Prompt(context, objective, style, None, audience, response)
    ensures Prompt(context, objective, style, tone, Some(""), response) == Prompt(context, objective, style, tone, None, response)
    ensures Prompt(Some(""), objective, style, tone, audience, response) == Prompt(None, objective, style, tone, audience, response)
  {
  }
}
