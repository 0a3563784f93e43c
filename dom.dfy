/** The parts of the host document that the modal controller reads and writes,
    reduced to plain values. */
module Dom {

  datatype Option<T> = None | Some(value: T)

  /** Identity of a DOM node: an event target, a trigger element or the modal's
      own surface element. */
  type NodeId = nat

  /** The `trigger` argument handed to `show` and `hide`; absent when they are
      called with no argument. */
  datatype Target = NoTarget | Node(id: NodeId)

  /** `style.display` of the surface: the constructor sets `'none'`, `show`
      sets `'block'`, the wrapped hide-end callback sets `'none'` again. */
  datatype Display = DisplayNone | DisplayBlock

  /** `style.opacity` of the surface: whatever the page had before any fade
      (`OpacityUnset`), or one of the two values the controller writes, 0 and 1. */
  datatype Opacity = OpacityUnset | Transparent | Opaque

  /** The overlay element, as far as the controller touches it. `scrollTop` is
      the element's vertical scroll offset. */
  datatype Surface = Surface(display: Display, opacity: Opacity, scrollTop: nat)
}
