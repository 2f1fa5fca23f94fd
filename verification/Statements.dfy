/** How both statement caches write what they report. */
module Statements {
  import opened Bytes

  /** What stands behind a text that was cut. */
  const MARKER: Text := Ascii("...")

  function UnknownStatement(name: Text): Text {
    Ascii("EXECUTE ") + name + Ascii(" /* unknown */")
  }
}
