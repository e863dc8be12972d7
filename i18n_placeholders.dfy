/**
 * What the i18n element-placeholder phase computes: a first scan that indexes
 * extracted messages by owner and element-start ops by xref, then a walk over each
 * unit's creation ops that tracks the open i18n block and records a parameter
 * value for every element or template tag placeholder inside it.
 */
module I18nPlaceholders {
  import opened Wrappers
  import opened I18nIr

  // ---------------------------------------------------------------------------
  // addParam
  // ---------------------------------------------------------------------------

  /** `addParam`: append `{value, subTemplateIndex, flags}` to the values under `placeholder`. */
  function AddParam(params: ParamMap, placeholder: string, value: int, subTemplateIndex: Option<int>,
                    flags: set<ParamFlag>): (r: ParamMap)
    ensures r.Keys == params.Keys + {placeholder}
    ensures r[placeholder] == (if placeholder in params then params[placeholder] else [])
                              + [I18nParamValue(value, subTemplateIndex, flags)]
    ensures forall k :: k in params && k != placeholder ==> r[k] == params[k]
  {
    var values := if placeholder in params then params[placeholder] else [];
    params[placeholder := values + [I18nParamValue(value, subTemplateIndex, flags)]]
  }

  // ---------------------------------------------------------------------------
  // First scan
  // ---------------------------------------------------------------------------

  /** What the phase keeps of an element-start op. */
  datatype ElementInfo = ElementInfo(slot: int, i18nPlaceholder: Option<TagPlaceholder>)

  /** The two maps of the first scan: `extractedMessageOps` (by owner) and `elements` (by xref). */
  datatype ScanIndex = ScanIndex(messages: map<XrefId, ParamMap>, elements: map<XrefId, ElementInfo>)

  function IndexOp(idx: ScanIndex, op: CreateOp): ScanIndex {
    match op
    case ExtractedMessage(owner, params) => idx.(messages := idx.messages[owner := params])
    case ElementStart(xref, slot, ph) => idx.(elements := idx.elements[xref := ElementInfo(slot, ph)])
    case _ => idx
  }

  /** The maps after scanning `ops` in order. */
  function IndexOps(ops: seq<CreateOp>): ScanIndex {
    if ops == [] then ScanIndex(map[], map[])
    else IndexOp(IndexOps(ops[..|ops| - 1]), ops[|ops| - 1])
  }

  /** The creation ops of all units, unit after unit. */
  function AllCreateOps(units: seq<Unit>): seq<CreateOp> {
    if units == [] then [] else AllCreateOps(units[..|units| - 1]) + units[|units| - 1].create
  }

  /** `op` is an extracted message owned by `owner`. */
  predicate OwnedBy(op: CreateOp, owner: XrefId) {
    op.ExtractedMessage? && op.owner == owner
  }

  /**
   * The first scan records an owner exactly when some extracted message has it, and
   * keeps the params of the LAST such message (a later `set` replaces an earlier one).
   */
  lemma {:induction false} ScanRecordsLastMessage(ops: seq<CreateOp>, owner: XrefId)
    ensures owner in IndexOps(ops).messages <==> exists i :: 0 <= i < |ops| && OwnedBy(ops[i], owner)
    ensures owner in IndexOps(ops).messages ==>
              exists i :: 0 <= i < |ops| && ops[i] == ExtractedMessage(owner, IndexOps(ops).messages[owner])
                          && forall j :: i < j < |ops| ==> !OwnedBy(ops[j], owner)
    decreases |ops|
  {
    if ops != [] {
      var init := ops[..|ops| - 1];
      var last := |ops| - 1;
      ScanRecordsLastMessage(init, owner);
      assert forall i :: 0 <= i < |init| ==> init[i] == ops[i];
      if OwnedBy(ops[last], owner) {
        assert ops[last] == ExtractedMessage(owner, IndexOps(ops).messages[owner]);
      } else if owner in IndexOps(init).messages {
        var i :| 0 <= i < |init| && init[i] == ExtractedMessage(owner, IndexOps(init).messages[owner])
                 && forall j :: i < j < |init| ==> !OwnedBy(init[j], owner);
        assert ops[i] == ExtractedMessage(owner, IndexOps(ops).messages[owner]);
      }
    }
  }

  /** `op` is an element start with xref `xref`. */
  predicate StartOf(op: CreateOp, xref: XrefId) {
    op.ElementStart? && op.xref == xref
  }

  /**
   * The first scan records an xref in `elements` exactly when some element start has
   * it, and keeps the slot and placeholder of the LAST such op.
   */
  lemma {:induction false} ScanRecordsLastElement(ops: seq<CreateOp>, xref: XrefId)
    ensures xref in IndexOps(ops).elements <==> exists i :: 0 <= i < |ops| && StartOf(ops[i], xref)
    ensures xref in IndexOps(ops).elements ==>
              exists i :: 0 <= i < |ops| && StartOf(ops[i], xref)
                          && IndexOps(ops).elements[xref] == ElementInfo(ops[i].slot, ops[i].i18nPlaceholder)
                          && forall j :: i < j < |ops| ==> !StartOf(ops[j], xref)
    decreases |ops|
  {
    if ops != [] {
      var init := ops[..|ops| - 1];
      var last := |ops| - 1;
      ScanRecordsLastElement(init, xref);
      assert forall i :: 0 <= i < |init| ==> init[i] == ops[i];
      if StartOf(ops[last], xref) {
        assert IndexOps(ops).elements[xref] == ElementInfo(ops[last].slot, ops[last].i18nPlaceholder);
      } else if xref in IndexOps(init).elements {
        var i :| 0 <= i < |init| && StartOf(init[i], xref)
                 && IndexOps(init).elements[xref] == ElementInfo(init[i].slot, init[i].i18nPlaceholder)
                 && forall j :: i < j < |init| ==> !StartOf(init[j], xref);
        assert IndexOps(ops).elements[xref] == ElementInfo(ops[i].slot, ops[i].i18nPlaceholder);
      }
    }
  }

  // ---------------------------------------------------------------------------
  // Second walk
  // ---------------------------------------------------------------------------

  /** `currentOps` when not null: the open i18n op's xref (its message's owner) and subTemplateIndex. */
  datatype Block = Block(owner: XrefId, subTemplateIndex: Option<int>)

  /** The walk's state: the params of every indexed message, and `currentOps`. */
  datatype WalkState = WalkState(messages: map<XrefId, ParamMap>, current: Option<Block>)

  ghost predicate BlockHasMessage(st: WalkState) {
    st.current.Some? ==> st.current.value.owner in st.messages
  }

  /** Append a param value to the message owned by `owner`. */
  function AddToMessage(messages: map<XrefId, ParamMap>, owner: XrefId, placeholder: string, value: int,
                        subTemplateIndex: Option<int>, flags: set<ParamFlag>): map<XrefId, ParamMap>
    requires owner in messages
  {
    messages[owner := AddParam(messages[owner], placeholder, value, subTemplateIndex, flags)]
  }

  /** Index of the first `I18nStart` op, or -1 when there is none. */
  function FirstI18nStart(ops: seq<CreateOp>): (i: int)
    ensures -1 <= i < |ops|
    ensures i >= 0 ==> ops[i].I18nStart?
    ensures forall j :: 0 <= j < |ops| && (i == -1 || j < i) ==> !ops[j].I18nStart?
  {
    if ops == [] then -1
    else if ops[0].I18nStart? then 0
    else
      var k := FirstI18nStart(ops[1..]);
      if k == -1 then -1 else k + 1
  }

  /**
   * `getSubTemplateIndexForTemplateTag`: the subTemplateIndex of the first i18n op in the
   * template's own view, else the enclosing block's; an unknown view is an error.
   */
  function SubTemplateIndexForTemplateTag(job: Job, fallback: Option<int>, xref: XrefId)
    : Result<Option<int>, PhaseError>
  {
    match FindUnit(job.units, xref)
    case None => Err(MissingTemplateView)
    case Some(ops) =>
      var i := FirstI18nStart(ops);
      Ok(if i == -1 then fallback else ops[i].subTemplateIndex)
  }

  const OpenTagFlags: set<ParamFlag> := {ElementTag, OpenTag}
  const SelfClosingTagFlags: set<ParamFlag> := {ElementTag, OpenTag, CloseTag}
  const CloseTagFlags: set<ParamFlag> := {ElementTag, CloseTag}
  const TemplateStartFlags: set<ParamFlag> := {TemplateTag}
  const TemplateCloseFlags: set<ParamFlag> := {TemplateTag, CloseTag}

  /** One iteration of the walk's `switch`. */
  function StepOp(job: Job, elements: map<XrefId, ElementInfo>, st: WalkState, op: CreateOp)
    : (r: Result<WalkState, PhaseError>)
    requires BlockHasMessage(st)
    ensures r.Ok? ==> BlockHasMessage(r.value) && r.value.messages.Keys == st.messages.Keys
  {
    match op
    case I18nStart(xref, sti) =>
      if xref !in st.messages then Err(MissingExtractedMessage)
      else Ok(st.(current := Some(Block(xref, sti))))
    case I18nEnd => Ok(st.(current := None))
    case ElementStart(_, slot, ph) =>
      if ph.None? then Ok(st)
      else if st.current.None? then Err(PlaceholderOutsideI18n)
      else
        var b := st.current.value;
        var flags := if ph.value.closeName == "" then SelfClosingTagFlags else OpenTagFlags;
        Ok(st.(messages := AddToMessage(st.messages, b.owner, ph.value.startName, slot, b.subTemplateIndex, flags)))
    case ElementEnd(xref) =>
      if xref !in elements || elements[xref].i18nPlaceholder.None? then Ok(st)
      else if st.current.None? then Err(PlaceholderOutsideI18n)
      else
        var b := st.current.value;
        var start := elements[xref];
        if start.i18nPlaceholder.value.closeName == "" then Ok(st)
        else Ok(st.(messages := AddToMessage(st.messages, b.owner, start.i18nPlaceholder.value.closeName,
                                             start.slot, b.subTemplateIndex, CloseTagFlags)))
    case Template(xref, slot, ph) =>
      if ph.None? then Ok(st)
      else if st.current.None? then Err(PlaceholderOutsideI18n)
      else
        var b := st.current.value;
        (match SubTemplateIndexForTemplateTag(job, b.subTemplateIndex, xref)
         case Err(e) => Err(e)
         case Ok(sti) =>
           var m1 := AddToMessage(st.messages, b.owner, ph.value.startName, slot, sti, TemplateStartFlags);
           Ok(st.(messages := AddToMessage(m1, b.owner, ph.value.closeName, slot, sti, TemplateCloseFlags))))
    case _ => Ok(st)
  }

  /** The walk over `ops` from `st`, stopping at the first error. */
  function WalkOps(job: Job, elements: map<XrefId, ElementInfo>, st: WalkState, ops: seq<CreateOp>)
    : (r: Result<WalkState, PhaseError>)
    requires BlockHasMessage(st)
    ensures r.Ok? ==> BlockHasMessage(r.value) && r.value.messages.Keys == st.messages.Keys
  {
    if ops == [] then Ok(st)
    else
      match WalkOps(job, elements, st, ops[..|ops| - 1])
      case Err(e) => Err(e)
      case Ok(s) => StepOp(job, elements, s, ops[|ops| - 1])
  }

  /** The second loop: each unit is walked with no block open at its start. */
  function WalkUnits(job: Job, elements: map<XrefId, ElementInfo>, messages: map<XrefId, ParamMap>,
                     units: seq<Unit>): (r: Result<map<XrefId, ParamMap>, PhaseError>)
    ensures r.Ok? ==> r.value.Keys == messages.Keys
  {
    if units == [] then Ok(messages)
    else
      match WalkUnits(job, elements, messages, units[..|units| - 1])
      case Err(e) => Err(e)
      case Ok(m) =>
        match WalkOps(job, elements, WalkState(m, None), units[|units| - 1].create)
        case Err(e) => Err(e)
        case Ok(st) => Ok(st.messages)
  }

  /**
   * `phaseResolveI18nElementPlaceholders`: the params of every indexed extracted message
   * after the pass, keyed by owner, or the error the pass throws.
   */
  function ResolvedParams(job: Job): Result<map<XrefId, ParamMap>, PhaseError> {
    var idx := IndexOps(AllCreateOps(job.units));
    WalkUnits(job, idx.elements, idx.messages, job.units)
  }

  // ---------------------------------------------------------------------------
  // Properties of the walk
  // ---------------------------------------------------------------------------

  /** The last `I18nStart` or `I18nEnd` op of `ops`, if any. */
  function LastBoundary(ops: seq<CreateOp>): Option<CreateOp> {
    if ops == [] then None
    else if ops[|ops| - 1].I18nStart? || ops[|ops| - 1].I18nEnd? then Some(ops[|ops| - 1])
    else LastBoundary(ops[..|ops| - 1])
  }

  /**
   * During the walk of a unit, a block is open exactly when the last i18n boundary op
   * seen is an `I18nStart`, and it is that op's block: "no block open" means before any
   * `I18nStart` or after an `I18nEnd`.
   */
  lemma {:induction false} OpenBlockIsLastI18nStart(job: Job, elements: map<XrefId, ElementInfo>,
                                                    m: map<XrefId, ParamMap>, ops: seq<CreateOp>)
    requires WalkOps(job, elements, WalkState(m, None), ops).Ok?
    ensures var st := WalkOps(job, elements, WalkState(m, None), ops).value;
            var lb := LastBoundary(ops);
      && (st.current.Some? <==> lb.Some? && lb.value.I18nStart?)
      && (st.current.Some? ==> st.current.value == Block(lb.value.xref, lb.value.subTemplateIndex))
    decreases |ops|
  {
    if ops != [] {
      OpenBlockIsLastI18nStart(job, elements, m, ops[..|ops| - 1]);
    }
  }

  /** A tag placeholder met while no block is open makes the pass fail. */
  lemma PlaceholderOutsideBlockFails(job: Job, elements: map<XrefId, ElementInfo>,
                                     m: map<XrefId, ParamMap>, ops: seq<CreateOp>, op: CreateOp)
    requires WalkOps(job, elements, WalkState(m, None), ops).Ok?
    requires LastBoundary(ops).None? || LastBoundary(ops).value.I18nEnd?
    requires || (op.ElementStart? && op.i18nPlaceholder.Some?)
             || (op.Template? && op.i18nPlaceholder.Some?)
             || (op.ElementEnd? && op.xref in elements && elements[op.xref].i18nPlaceholder.Some?)
    ensures WalkOps(job, elements, WalkState(m, None), ops + [op]) == Err(PlaceholderOutsideI18n)
  {
    OpenBlockIsLastI18nStart(job, elements, m, ops);
    assert (ops + [op])[..|ops|] == ops;
  }

  /** An `I18nStart` whose xref owns no extracted message makes the pass fail. */
  lemma I18nStartWithoutMessageFails(job: Job, elements: map<XrefId, ElementInfo>, st: WalkState,
                                     xref: XrefId, sti: Option<int>)
    requires BlockHasMessage(st) && xref !in st.messages
    ensures StepOp(job, elements, st, I18nStart(xref, sti)) == Err(MissingExtractedMessage)
  {
  }

  /** The first error of a unit's walk is the error of the whole walk of that unit. */
  lemma {:induction false} WalkOpsErrorSticks(job: Job, elements: map<XrefId, ElementInfo>, st: WalkState,
                                              ops: seq<CreateOp>, k: nat)
    requires BlockHasMessage(st) && k <= |ops|
    requires WalkOps(job, elements, st, ops[..k]).Err?
    ensures WalkOps(job, elements, st, ops) == WalkOps(job, elements, st, ops[..k])
    decreases |ops| - k
  {
    if k < |ops| {
      assert ops[..k + 1][..k] == ops[..k];
      WalkOpsErrorSticks(job, elements, st, ops, k + 1);
    } else {
      assert ops[..k] == ops;
    }
  }

  /** An error while walking one unit is the error of the whole pass over the units. */
  lemma {:induction false} WalkUnitsErrorSticks(job: Job, elements: map<XrefId, ElementInfo>,
                                                m: map<XrefId, ParamMap>, units: seq<Unit>, k: nat)
    requires k <= |units|
    requires WalkUnits(job, elements, m, units[..k]).Err?
    ensures WalkUnits(job, elements, m, units) == WalkUnits(job, elements, m, units[..k])
    decreases |units| - k
  {
    if k < |units| {
      assert units[..k + 1][..k] == units[..k];
      WalkUnitsErrorSticks(job, elements, m, units, k + 1);
    } else {
      assert units[..k] == units;
    }
  }

  /**
   * An open and non-self-closing element start records one value under its start name,
   * flagged element and open tag, with the block's subTemplateIndex; a self-closing one
   * (empty close name) also carries the close-tag flag. Nothing else changes.
   */
  lemma ElementStartRecordsStartTag(job: Job, elements: map<XrefId, ElementInfo>, st: WalkState,
                                    xref: XrefId, slot: int, ph: TagPlaceholder)
    requires BlockHasMessage(st) && st.current.Some?
    ensures var b := st.current.value;
            var r := StepOp(job, elements, st, ElementStart(xref, slot, Some(ph)));
            var flags := if ph.closeName == "" then {ElementTag, OpenTag, CloseTag} else {ElementTag, OpenTag};
            var before := st.messages[b.owner];
      && r.Ok? && r.value.current == st.current
      && r.value.messages[b.owner][ph.startName]
         == (if ph.startName in before then before[ph.startName] else [])
            + [I18nParamValue(slot, b.subTemplateIndex, flags)]
      && r.value.messages[b.owner].Keys == before.Keys + {ph.startName}
      && (forall k :: k in before && k != ph.startName ==> r.value.messages[b.owner][k] == before[k])
      && (forall o :: o in st.messages && o != b.owner ==> r.value.messages[o] == st.messages[o])
  {
  }

  /**
   * The end of an element whose start had a placeholder records, when the close name is
   * not empty, one value under the close name with the START op's slot, flagged element
   * and close tag; for a self-closing element it records nothing.
   */
  lemma ElementEndRecordsCloseTag(job: Job, elements: map<XrefId, ElementInfo>, st: WalkState, xref: XrefId)
    requires BlockHasMessage(st) && st.current.Some?
    requires xref in elements && elements[xref].i18nPlaceholder.Some?
    ensures var b := st.current.value;
            var start := elements[xref];
            var closeName := start.i18nPlaceholder.value.closeName;
            var r := StepOp(job, elements, st, ElementEnd(xref));
            var before := st.messages[b.owner];
      && r.Ok? && r.value.current == st.current
      && (closeName == "" ==> r.value == st)
      && (closeName != "" ==>
            && r.value.messages[b.owner][closeName]
               == (if closeName in before then before[closeName] else [])
                  + [I18nParamValue(start.slot, b.subTemplateIndex, {ElementTag, CloseTag})]
            && r.value.messages[b.owner].Keys == before.Keys + {closeName}
            && (forall k :: k in before && k != closeName ==> r.value.messages[b.owner][k] == before[k])
            && (forall o :: o in st.messages && o != b.owner ==> r.value.messages[o] == st.messages[o]))
  {
  }

  /**
   * A template with a placeholder records two values with its slot and the template's
   * subTemplateIndex: a template tag under the start name, then a template close tag
   * under the close name.
   */
  lemma TemplateRecordsStartAndClose(job: Job, elements: map<XrefId, ElementInfo>, st: WalkState,
                                     xref: XrefId, slot: int, ph: TagPlaceholder)
    requires BlockHasMessage(st) && st.current.Some?
    requires FindUnit(job.units, xref).Some?
    ensures var b := st.current.value;
            var sti := SubTemplateIndexForTemplateTag(job, b.subTemplateIndex, xref).value;
            var r := StepOp(job, elements, st, Template(xref, slot, Some(ph)));
            var before := st.messages[b.owner];
            var mid := AddParam(before, ph.startName, slot, sti, {TemplateTag});
      && r.Ok? && r.value.current == st.current
      && mid[ph.startName][|mid[ph.startName]| - 1] == I18nParamValue(slot, sti, {TemplateTag})
      && r.value.messages[b.owner] == AddParam(mid, ph.closeName, slot, sti, {TemplateTag, CloseTag})
      && (forall o :: o in st.messages && o != b.owner ==> r.value.messages[o] == st.messages[o])
  {
  }

  /** A template's subTemplateIndex is that of the first i18n op of its own view, else the block's. */
  lemma SubTemplateIndexIsFirstI18nStart(job: Job, fallback: Option<int>, xref: XrefId)
    requires FindUnit(job.units, xref).Some?
    ensures var ops := FindUnit(job.units, xref).value;
            var r := SubTemplateIndexForTemplateTag(job, fallback, xref);
      && r.Ok?
      && ((forall j :: 0 <= j < |ops| ==> !ops[j].I18nStart?) ==> r.value == fallback)
      && (forall i :: 0 <= i < |ops| && ops[i].I18nStart? && (forall j :: 0 <= j < i ==> !ops[j].I18nStart?)
            ==> r.value == ops[i].subTemplateIndex)
  {
  }

  /** Ops of other kinds, and element or template ops without a placeholder, change nothing. */
  lemma OpsWithoutPlaceholderChangeNothing(job: Job, elements: map<XrefId, ElementInfo>, st: WalkState,
                                           op: CreateOp)
    requires BlockHasMessage(st)
    requires || op.OtherOp? || op.ExtractedMessage?
             || ((op.ElementStart? || op.Template?) && op.i18nPlaceholder.None?)
             || (op.ElementEnd? && (op.xref !in elements || elements[op.xref].i18nPlaceholder.None?))
    ensures StepOp(job, elements, st, op) == Ok(st)
  {
  }
}
