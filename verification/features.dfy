/** The data the QC engine works on: feature groups and their sub-features,
    the transition reference table, and the acceptance criteria. */
module Features {
  import opened Ranges

  datatype Option<T> = None | Some(value: T)

  /** The pass flag and failure messages written on an item in flag mode
      (QC_transition_pass / QC_transition_message on a sub-feature,
      QC_transition_group_pass / QC_transition_group_message on a group). */
  datatype QcFlag = QcFlag(pass: bool, message: seq<string>)

  /** One transition (component) measured beneath a group. nativeId is the
      "native_id" annotation, which may be absent; labelType is the
      "LabelType" annotation; meta holds the numeric annotations by key. */
  datatype SubFeature = SubFeature(
    nativeId: Option<string>,
    labelType: string,
    rt: real,
    intensity: real,
    quality: real,
    meta: map<string, real>,
    qc: Option<QcFlag>)

  /** One component group. peptideRef is the "PeptideRef" annotation that
      names the group. */
  datatype Feature = Feature(
    peptideRef: string,
    rt: real,
    intensity: real,
    quality: real,
    subordinates: seq<SubFeature>,
    meta: map<string, real>,
    qc: Option<QcFlag>)

  /** The name a sub-feature is matched under: its native id, or the empty
      string when it has none. */
  function Name(s: SubFeature): string
  {
    match s.nativeId
    case Some(id) => id
    case None => ""
  }

  /** An entry of the transition reference table. */
  datatype Transition = Transition(
    nativeId: string,
    quantifying: bool,
    identifying: bool,
    detecting: bool)

  /** An acceptance range on the numeric annotation stored under key. */
  datatype MetaCriterion = MetaCriterion(key: string, bounds: Bounds)

  /** The criteria for one component group (an entry of component_group_qcs).
      The six count criteria hold whole numbers in the source; here they are
      reals, which orders and compares the same integers identically. */
  datatype GroupQc = GroupQc(
    groupName: string,
    retentionTime: Bounds,
    intensity: Bounds,
    overallQuality: Bounds,
    nHeavy: Bounds,
    nLight: Bounds,
    nDetecting: Bounds,
    nQuantifying: Bounds,
    nIdentifying: Bounds,
    nTransitions: Bounds,
    ionRatioPair1: string,
    ionRatioPair2: string,
    ionRatioFeature: string,
    ionRatio: Bounds,
    metaQc: seq<MetaCriterion>)

  /** The criteria for one component (an entry of component_qcs). */
  datatype SubQc = SubQc(
    componentName: string,
    retentionTime: Bounds,
    intensity: Bounds,
    overallQuality: Bounds,
    metaQc: seq<MetaCriterion>)

  /** MRMFeatureQC: the criteria set. */
  datatype Criteria = Criteria(groupQcs: seq<GroupQc>, subQcs: seq<SubQc>)

  /** The flag_or_filter parameter, whose valid strings are "flag" and "filter". */
  datatype Mode = Flag | Filter

  const TransitionScoreKey: string := "QC_transition_score"
  const GroupScoreKey: string := "QC_transition_group_score"
}
