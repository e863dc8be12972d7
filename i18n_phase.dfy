/**
 * The i18n element-placeholder phase as the compiler runs it: two passes of nested
 * loops over the units' creation ops, updating the extracted messages' params as they
 * go, proved to compute `I18nPlaceholders.ResolvedParams`.
 */
module I18nPhase {
  import opened Wrappers
  import opened I18nIr
  import opened I18nPlaceholders

  /** `getSubTemplateIndexForTemplateTag`: scan the template's view for its first i18n op. */
  method GetSubTemplateIndexForTemplateTag(job: Job, i18nSubTemplateIndex: Option<int>, xref: XrefId)
    returns (r: Result<Option<int>, PhaseError>)
    ensures r == SubTemplateIndexForTemplateTag(job, i18nSubTemplateIndex, xref)
  {
    var view := FindUnit(job.units, xref);
    if view.None? {
      return Err(MissingTemplateView);
    }
    var childOps := view.value;
    var i := 0;
    while i < |childOps|
      invariant 0 <= i <= |childOps|
      invariant forall j :: 0 <= j < i ==> !childOps[j].I18nStart?
    {
      if childOps[i].I18nStart? {
        return Ok(childOps[i].subTemplateIndex);
      }
      i := i + 1;
    }
    return Ok(i18nSubTemplateIndex);
  }

  lemma ScanStep(prefix: seq<CreateOp>, ops: seq<CreateOp>, i: nat)
    requires i < |ops|
    ensures IndexOps(prefix + ops[..i + 1]) == IndexOp(IndexOps(prefix + ops[..i]), ops[i])
  {
    assert (prefix + ops[..i + 1])[..|prefix + ops[..i + 1]| - 1] == prefix + ops[..i];
  }

  lemma WalkStep(job: Job, elements: map<XrefId, ElementInfo>, st: WalkState, ops: seq<CreateOp>, i: nat)
    requires BlockHasMessage(st) && i < |ops|
    requires WalkOps(job, elements, st, ops[..i]).Ok?
    ensures WalkOps(job, elements, st, ops[..i + 1])
            == StepOp(job, elements, WalkOps(job, elements, st, ops[..i]).value, ops[i])
  {
    assert ops[..i + 1][..i] == ops[..i];
  }

  /** An error at op `i` of unit `u` is the result of the whole pass. */
  lemma FailureEndsPass(job: Job, elements: map<XrefId, ElementInfo>, messages: map<XrefId, ParamMap>,
                        u: nat, m: map<XrefId, ParamMap>, i: nat, e: PhaseError)
    requires u < |job.units| && i < |job.units[u].create|
    requires WalkUnits(job, elements, messages, job.units[..u]) == Ok(m)
    requires WalkOps(job, elements, WalkState(m, None), job.units[u].create[..i + 1]) == Err(e)
    ensures WalkUnits(job, elements, messages, job.units) == Err(e)
  {
    WalkOpsErrorSticks(job, elements, WalkState(m, None), job.units[u].create, i + 1);
    assert job.units[..u + 1][..u] == job.units[..u];
    WalkUnitsErrorSticks(job, elements, messages, job.units, u + 1);
  }

  /** The first loop: record every extracted message by owner and every element start by xref. */
  method IndexCreateOps(units: seq<Unit>)
    returns (extractedMessages: map<XrefId, ParamMap>, elements: map<XrefId, ElementInfo>)
    ensures ScanIndex(extractedMessages, elements) == IndexOps(AllCreateOps(units))
  {
    extractedMessages := map[];
    elements := map[];
    var u := 0;
    while u < |units|
      invariant 0 <= u <= |units|
      invariant ScanIndex(extractedMessages, elements) == IndexOps(AllCreateOps(units[..u]))
    {
      var ops := units[u].create;
      ghost var prefix := AllCreateOps(units[..u]);
      var i := 0;
      assert prefix + ops[..0] == prefix;
      while i < |ops|
        invariant 0 <= i <= |ops|
        invariant ScanIndex(extractedMessages, elements) == IndexOps(prefix + ops[..i])
      {
        ScanStep(prefix, ops, i);
        match ops[i] {
          case ExtractedMessage(owner, params) =>
            extractedMessages := extractedMessages[owner := params];
          case ElementStart(xref, slot, ph) =>
            elements := elements[xref := ElementInfo(slot, ph)];
          case _ =>
        }
        i := i + 1;
      }
      assert ops[..i] == ops;
      assert units[..u + 1][..u] == units[..u];
      u := u + 1;
    }
    assert units[..u] == units;
  }

  /**
   * One iteration of the second loop's `switch`, on the messages' params and the open
   * block (`currentOps`); the error when the op throws.
   */
  method Step(job: Job, elements: map<XrefId, ElementInfo>, extractedMessages: map<XrefId, ParamMap>,
              current: Option<Block>, op: CreateOp)
    returns (r: Result<WalkState, PhaseError>)
    requires BlockHasMessage(WalkState(extractedMessages, current))
    ensures r == StepOp(job, elements, WalkState(extractedMessages, current), op)
  {
    var messages := extractedMessages;
    var block := current;
    match op {
      case I18nStart(xref, subTemplateIndex) =>
        if xref !in messages {
          return Err(MissingExtractedMessage);
        }
        block := Some(Block(xref, subTemplateIndex));
      case I18nEnd =>
        block := None;
      case ElementStart(_, slot, ph) =>
        if ph.Some? {
          if block.None? {
            return Err(PlaceholderOutsideI18n);
          }
          var flags := {ElementTag, OpenTag};
          // A self-closing tag's start placeholder also stands for its close tag.
          if ph.value.closeName == "" {
            flags := flags + {CloseTag};
          }
          assert flags == (if ph.value.closeName == "" then SelfClosingTagFlags else OpenTagFlags);
          messages := AddToMessage(messages, block.value.owner, ph.value.startName,
                                   slot, block.value.subTemplateIndex, flags);
        }
      case ElementEnd(xref) =>
        if xref in elements && elements[xref].i18nPlaceholder.Some? {
          var startOp := elements[xref];
          if block.None? {
            return Err(PlaceholderOutsideI18n);
          }
          if startOp.i18nPlaceholder.value.closeName != "" {
            messages := AddToMessage(messages, block.value.owner, startOp.i18nPlaceholder.value.closeName,
                                     startOp.slot, block.value.subTemplateIndex, CloseTagFlags);
          }
        }
      case Template(xref, slot, ph) =>
        if ph.Some? {
          if block.None? {
            return Err(PlaceholderOutsideI18n);
          }
          var sti := GetSubTemplateIndexForTemplateTag(job, block.value.subTemplateIndex, xref);
          if sti.Err? {
            return Err(sti.error);
          }
          messages := AddToMessage(messages, block.value.owner, ph.value.startName,
                                   slot, sti.value, TemplateStartFlags);
          messages := AddToMessage(messages, block.value.owner, ph.value.closeName,
                                   slot, sti.value, TemplateCloseFlags);
        }
      case _ =>
    }
    return Ok(WalkState(messages, block));
  }

  /** `phaseResolveI18nElementPlaceholders`: the params of every indexed message after the pass. */
  method ResolveI18nElementPlaceholders(job: Job) returns (res: Result<map<XrefId, ParamMap>, PhaseError>)
    ensures res == ResolvedParams(job)
  {
    var extractedMessages, elements := IndexCreateOps(job.units);

    // Walk each unit's creation ops, tracking the open i18n block.
    ghost var indexed := extractedMessages;
    var u := 0;
    while u < |job.units|
      invariant 0 <= u <= |job.units|
      invariant WalkUnits(job, elements, indexed, job.units[..u]) == Ok(extractedMessages)
    {
      var current: Option<Block> := None;
      ghost var atStart := extractedMessages;
      var ops := job.units[u].create;
      var i := 0;
      while i < |ops|
        invariant 0 <= i <= |ops|
        invariant BlockHasMessage(WalkState(extractedMessages, current))
        invariant WalkOps(job, elements, WalkState(atStart, None), ops[..i])
                  == Ok(WalkState(extractedMessages, current))
      {
        WalkStep(job, elements, WalkState(atStart, None), ops, i);
        var step := Step(job, elements, extractedMessages, current, ops[i]);
        if step.Err? {
          FailureEndsPass(job, elements, indexed, u, atStart, i, step.error);
          return Err(step.error);
        }
        extractedMessages, current := step.value.messages, step.value.current;
        i := i + 1;
      }
      assert ops[..i] == ops;
      assert job.units[..u + 1][..u] == job.units[..u];
      u := u + 1;
    }
    assert job.units[..u] == job.units;
    return Ok(extractedMessages);
  }
}
