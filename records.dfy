/** The record the discovery step builds for each data file it keeps. */
module Records {
  import PathPattern

  /**
   * One discovered data file: its absolute path, the four groups parsed from
   * its root-relative path, its size in bytes, and a status that the
   * discovery step always leaves empty.
   */
  datatype DataEntity = DataEntity(
    absPath: string,
    scope: string,
    id: string,
    ver: string,
    entity: string,
    size: nat,
    status: string)

  function Fields(r: DataEntity): PathPattern.PathFields {
    PathPattern.PathFields(r.scope, r.id, r.ver, r.entity)
  }

  /**
   * What every discovered record satisfies: a dot-free scope, non-empty digit
   * id and version, a 32-character lowercase hexadecimal entity, empty status.
   */
  predicate WellFormed(r: DataEntity) {
    PathPattern.WellFormedFields(Fields(r)) && r.status == ""
  }
}
