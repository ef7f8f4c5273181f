/** The `Line` record of the parsers' utilities: a line of a source file
    with its 0-based number. It stands on its own so that both the section
    splitter and the chickenfeed guessers can use it. */
module Lines {
  datatype Line = Line(lineno: int, content: string)
}
