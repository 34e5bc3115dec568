/** privaite/pii/entity.py: one detection. */
module Entities {
  datatype Entity = Entity(
    entityType: string,
    text: string,
    start: int,
    end: int,
    score: real,
    source: string)
  {
    function Length(): int { end - start }
  }
}
