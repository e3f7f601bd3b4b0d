/** A QGIS project document as the tags its fixes look at. */
module QgsTokens {
  import opened Text

  datatype Token =
    | ContainerOpen(survey: bool, id: string) // `survey`: name "Survey" and type "Tab"
    | ContainerClose
    | Field(id: string)
    | Relation(id: string)
    | BlankText                               // spaces and tabs
    | Newline
    | IccRef(attachment: string)
    | MapLayerOpen
    | MapLayerClose
    | LayerName(name: string)
    | LayerId(id: string)
    | DataSource(source: string)
    | GroupOpen
    | TreeLayerOpen(id: string, source: string)
    | TreeLayerClose
    | ProjectCrs(srs: Option<Srs>)            // the whole element; its one reference system, if that is all it holds
    | VerticalCrs                             // the whole element
    | MapCanvas(units: string, extent: Extent, canvasSrs: Srs)
    | Other(text: string)

  datatype Srs = Srs(acronym: string, text: string)

  datatype Extent = Extent(xmin: real, ymin: real, xmax: real, ymax: real)

  predicate IsSurvey(t: Token) { t.ContainerOpen? && t.survey }

  predicate IsOpen(t: Token) { t.ContainerOpen? }

  predicate IsClose(t: Token) { t.ContainerClose? }

  /** What makes a tab show something. */
  predicate IsContent(t: Token) { t.Field? || t.Relation? || t.ContainerOpen? }

  /** Tags the tab pass does not look at. */
  predicate Neutral(s: seq<Token>) {
    forall i :: 0 <= i < |s| ==> !IsContent(s[i]) && !IsClose(s[i])
  }

  /** The tags that are searched for. */
  datatype Tag = SurveyTag | OpenTag | CloseTag | GroupTag | TreeLayerCloseTag

  predicate Is(tag: Tag, t: Token) {
    match tag
    case SurveyTag => IsSurvey(t)
    case OpenTag => IsOpen(t)
    case CloseTag => IsClose(t)
    case GroupTag => t.GroupOpen?
    case TreeLayerCloseTag => t.TreeLayerClose?
  }

  /** The first such tag from `from` on. */
  function Seek(s: seq<Token>, from: nat, tag: Tag): (r: Option<nat>)
    requires from <= |s|
    ensures r.Some? ==> from <= r.value < |s| && Is(tag, s[r.value])
    ensures r.Some? ==> forall j :: from <= j < r.value ==> !Is(tag, s[j])
    ensures r.None? ==> forall j :: from <= j < |s| ==> !Is(tag, s[j])
    decreases |s| - from
  {
    if from == |s| then None else if Is(tag, s[from]) then Some(from) else Seek(s, from + 1, tag)
  }

  /** The first such tag in a stretch of the document. */
  function SeekBefore(s: seq<Token>, from: nat, to: nat, tag: Tag): (r: Option<nat>)
    requires from <= to <= |s|
    ensures r.Some? ==> from <= r.value < to && Is(tag, s[r.value])
    ensures r.Some? ==> forall j :: from <= j < r.value ==> !Is(tag, s[j])
    ensures r.None? ==> forall j :: from <= j < to ==> !Is(tag, s[j])
  {
    var r := Seek(s, from, tag);
    if r.Some? && r.value < to then r else None
  }

  /** The first match is the only match with none before it. */
  lemma SeekIs(s: seq<Token>, from: nat, tag: Tag, i: nat)
    requires from <= i < |s| && Is(tag, s[i]) && forall j :: from <= j < i ==> !Is(tag, s[j])
    ensures Seek(s, from, tag) == Some(i)
  {
  }
}
