/** Arguments handed to the raster tool.  The tool receives plain strings; the
    model keeps the two arguments that are formatted from numbers structured,
    so that no number-to-text conversion has to be modelled. */
module Commands {
  /** A crop geometry, written `WxH+X+Y` on the command line. */
  datatype Region = Region(width: real, height: real, x: real, y: real)

  datatype Arg =
    | Word(text: string)              // an option, an operator or a file name
    | Geometry(region: Region)        // `WxH+X+Y`
    | Size(width: real, height: real) // `WxH`

  /** One invocation's argument list (`Command = string[]` in the source). */
  type Command = seq<Arg>
}
