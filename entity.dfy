/** The records and report values of internal/entity/entity.go. Go embeds
    QualifiedName in ID and ID in Record, Entry and Footnote; here the
    embedded value is a named field. */
module Entity {

  /** A qualifier token sequence (the source's Type) and a proper name. */
  datatype QualifiedName = QualifiedName(qualifier: string, name: string)

  /** A qualified name with its free-text hint. */
  datatype ID = ID(qualifiedName: QualifiedName, hint: string)

  /** One table row: identity, the hour the row's period ended, its comment. */
  datatype Record = Record(id: ID, endHour: nat, comment: string)

  datatype Entry = Entry(id: ID, count: int)

  datatype Group = Group(entries: seq<Entry>, total: int)

  datatype Page = Page(filename: string, knownGroups: seq<Group>, unknownEntries: seq<Entry>)

  datatype Footnote = Footnote(id: ID, comments: seq<string>)

  /** The whole report. `records` is never filled by the assembler. */
  datatype Data = Data(
    records: seq<Record>,
    pages: seq<Page>,
    total: seq<Entry>,
    totalUnknown: seq<Entry>,
    footnotes: seq<Footnote>,
    summary: string)
}
