/** Identifiers. A `uuid::Uuid` is modelled by its canonical (hyphenated,
    lower-case) text, which is what `to_string()` yields. */
module Ids {

  datatype Uuid = Uuid(hyphenated: string) {

    /** `Uuid::to_string`. */
    function ToString(): string {
      hyphenated
    }
  }
}
