/**
 * The part of the template compiler's intermediate representation that the i18n
 * element-placeholder phase reads and writes: creation ops, the parameter values
 * recorded on extracted messages, and the phase's errors.
 */
module I18nIr {
  import opened Wrappers

  type XrefId = nat

  /** `I18nParamValueFlags`, as the set of bits that are on. */
  datatype ParamFlag = ElementTag | TemplateTag | OpenTag | CloseTag

  /** `{value, subTemplateIndex, flags}`: the value is the element's or template's slot. */
  datatype I18nParamValue = I18nParamValue(value: int, subTemplateIndex: Option<int>, flags: set<ParamFlag>)

  /** `Map<string, I18nParamValue[]>` of an extracted message. */
  type ParamMap = map<string, seq<I18nParamValue>>

  /** `i18nPlaceholder`: the names of an element's or template's start and close tags. */
  datatype TagPlaceholder = TagPlaceholder(startName: string, closeName: string)

  datatype CreateOp =
    | ExtractedMessage(owner: XrefId, params: ParamMap)
    | ElementStart(xref: XrefId, slot: int, i18nPlaceholder: Option<TagPlaceholder>)
    | ElementEnd(xref: XrefId)
    | I18nStart(xref: XrefId, subTemplateIndex: Option<int>)
    | I18nEnd
    | Template(xref: XrefId, slot: int, i18nPlaceholder: Option<TagPlaceholder>)
    | OtherOp

  /** A view of the compilation job (a compilation unit) and its creation-op list. */
  datatype Unit = Unit(xref: XrefId, create: seq<CreateOp>)

  /** The component compilation job: its units, in the order `job.units` yields them. */
  datatype Job = Job(units: seq<Unit>)

  datatype PhaseError =
    | MissingExtractedMessage   // 'Could not find extracted message for i18n op'
    | PlaceholderOutsideI18n    // 'i18n tag placeholder should only occur inside an i18n block'
    | MissingTemplateView       // `job.views.get(op.xref)!` is undefined

  /** `job.views.get(xref)`: the creation ops of the (first) unit with that xref. */
  function FindUnit(units: seq<Unit>, xref: XrefId): (r: Option<seq<CreateOp>>)
    ensures r.Some? ==> exists i :: 0 <= i < |units| && units[i] == Unit(xref, r.value)
    ensures r.None? ==> forall i :: 0 <= i < |units| ==> units[i].xref != xref
  {
    if units == [] then None
    else if units[0].xref == xref then Some(units[0].create)
    else FindUnit(units[1..], xref)
  }
}
