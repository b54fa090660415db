/**
 * The slice of the page's document the image loaders and the reviews list
 * write to: element children built from a few node shapes, a container
 * whose content is replaced or appended to, and the hero section whose
 * inline background-image the slideshow sets.
 */
module Dom {

  /** The `loading` attribute of an image element. */
  datatype Loading = Eager | Lazy

  /** The `decoding` attribute of an image element; Auto is the default. */
  datatype Decoding = AutoDecoding | AsyncDecoding

  /**
   * A child node the page script creates. For Image, height and marginRight
   * are the inline style values, "" when the script leaves them unset.
   * Paragraph is what assigning `<p>text</p>` to innerHTML produces;
   * ReviewCard is the `div.review-card` holding name, stars and comment.
   */
  datatype Node =
    | Image(src: string, alt: string, loading: Loading, decoding: Decoding,
            height: string, marginRight: string)
    | Paragraph(text: string)
    | ReviewCard(name: string, stars: string, comment: string)

  /** An element whose children the script replaces (innerHTML) or extends (appendChild). */
  class Container {
    var children: seq<Node>

    constructor (initial: seq<Node>)
      ensures children == initial
    {
      children := initial;
    }

    /** `innerHTML = ""`. */
    method Clear()
      modifies this
      ensures children == []
    {
      children := [];
    }

    /** `innerHTML = "<p>text</p>"`. */
    method ShowParagraph(text: string)
      modifies this
      ensures children == [Paragraph(text)]
    {
      children := [Paragraph(text)];
    }

    /** `appendChild(node)`. */
    method AppendChild(node: Node)
      modifies this
      ensures children == old(children) + [node]
    {
      children := children + [node];
    }
  }

  /** The `.home` section; backgroundImage is its inline CSS value. */
  class Hero {
    var backgroundImage: string

    constructor (initial: string)
      ensures backgroundImage == initial
    {
      backgroundImage := initial;
    }
  }
}
