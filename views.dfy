/** The widgets around the tree that the event handlers switch between. */
module Views {
  /** The view setFocusOn gives the focus to; its border colours are not
      modelled. */
  datatype Focus = TreeView | DetailsView | CmdInput

  /** cmdInputPurpose: what the command input was opened for. */
  datatype Purpose = PurposeSearch | PurposeCmd

  /** The keys cmdInput's done handler tells apart. */
  datatype DoneKey = KeyEnter | KeyEsc | OtherDoneKey

  const SearchLabel := "Search:"
  const CommandLabel := "Command:"
  const NoMatches := "(no matches)"
}
