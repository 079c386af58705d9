/** The schema manifest's tables, as far as tagging and resolving read them. */
module Schema {
  datatype ColumnInfo = ColumnInfo(name: string, dataType: string)

  datatype ForeignKey = ForeignKey(column: string, referencedTable: string)

  datatype TableInfo = TableInfo(name: string, rowCount: int, columns: seq<ColumnInfo>,
                                 foreignKeys: seq<ForeignKey>, nouiTags: seq<string>)

  function Untagged(t: TableInfo): TableInfo {
    t.(nouiTags := [])
  }
}
