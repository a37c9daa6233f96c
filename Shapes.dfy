/**
 * The entities of a call-flow drawing. Vertices and edges are objects: the
 * graph's dictionaries and hash sets compare them by reference, so two shapes
 * with equal fields (the same `Id` on two pages, say) stay distinct. Their
 * fields are fixed once the builder has filled them in.
 *
 * The XML a page is read from is replaced by two kinds of abstract records:
 * a `Shape` element and a `Connect` element, with just the attributes the
 * builders consult.
 */
module Shapes {
  import opened Basics

  /** A non-connector shape of a page. */
  class VertexShape {
    const Id: string
    /** The shape's trimmed text, or "" when it has none. */
    const Text: string
    const Type: string
    const PageName: string
    /** The `Master` attribute, absent for shapes without a master. */
    const MasterId: Option<string>
    /**
     * The hyperlink SubAddress (the page an off-page reference points to):
     * "" for a shape without a hyperlink, `None` (null) for a hyperlink
     * without a SubAddress.
     */
    const PageReference: Option<string>

    constructor (id: string, text: string, kind: string, pageName: string, masterId: Option<string>, pageReference: Option<string>)
      ensures Id == id && Text == text && Type == kind && PageName == pageName
      ensures MasterId == masterId && PageReference == pageReference
    {
      Id := id;
      Text := text;
      Type := kind;
      PageName := pageName;
      MasterId := masterId;
      PageReference := pageReference;
    }
  }

  /** A directed connection; `FromShape` and `ToShape` name its end points by shape id. */
  class EdgeShape {
    const Id: string
    const Text: Option<string>
    const ToShape: string
    const FromShape: string

    constructor (id: string, text: Option<string>, toShape: string, fromShape: string)
      ensures Id == id && Text == text && ToShape == toShape && FromShape == fromShape
    {
      Id := id;
      Text := text;
      ToShape := toShape;
      FromShape := fromShape;
    }
  }

  /** The text every synthetic edge joining two references carries. */
  const ReferenceLinkText: string := "Reference link"

  /** A shape's hyperlink section: absent, or present with or without a `SubAddress` value. */
  datatype Hyperlink = NoHyperlink | HyperlinkSection(subAddress: Option<string>)

  /**
   * A `Shape` element: its `ID`, `Type` and `Master` attributes, the value of
   * its `Text` child, and its hyperlink section.
   */
  datatype ShapeRecord = ShapeRecord(
    id: string,
    shapeType: Option<string>,
    master: Option<string>,
    text: Option<string>,
    hyperlink: Hyperlink)

  /** A `Connect` element: which connector (`FromSheet`), which end of it (`FromCell`), glued to which shape (`ToSheet`). */
  datatype ConnectRecord = ConnectRecord(fromSheet: string, fromCell: string, toSheet: string)

  const BeginCell: string := "BeginX"
  const EndCell: string := "EndX"
}
