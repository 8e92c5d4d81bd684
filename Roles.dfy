/** The four fields a table header can name, shared by the spreadsheet and
    the Word table parsers. */
module Roles {

  /** The column of each field; -1 while it has not been found. */
  datatype Columns = Columns(pozNo: int, tanim: int, birim: int, fiyat: int)

  const NotFound: Columns := Columns(-1, -1, -1, -1)

  /** Which fields a header cell names. */
  datatype Named = Named(pozNo: bool, tanim: bool, birim: bool, fiyat: bool)

  /** Whether `n` names field `k`: 0 position number, 1 description, 2
      unit, 3 price. */
  predicate NamedRole(n: Named, k: nat) {
    if k == 0 then n.pozNo else if k == 1 then n.tanim else if k == 2 then n.birim else n.fiyat
  }

  /** The column of field `k`. */
  function Role(cs: Columns, k: nat): int {
    if k == 0 then cs.pozNo else if k == 1 then cs.tanim else if k == 2 then cs.birim else cs.fiyat
  }
}
