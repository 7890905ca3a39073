/** Failure-carrying values used across the model.
    - Option stands for a JavaScript number that may be NaN (None) or for a
      lookup that may be undefined.
    - Result stands for a computation that may throw; the Error says which
      dereference of a missing record threw.
 */
module Results {

  datatype Option<T> = None | Some(value: T)

  /** What the source throws on. Each case is a `TypeError` in the source, raised
      when a `find(...)!` or an index into a lookup table comes back undefined
      and the code reads a field of it. */
  datatype Error =
    | UnknownTagGroup(groupId: int)  // a tag's id_tag_group matches no tag group
    | UnknownMood(moodId: int)       // a day entry's mood id matches no custom mood
    | UnknownTag(tagId: int)         // a day entry's tag id matches no tag (main.js only)
    | UndefinedTag                   // a field of an unresolved (undefined) tag was read

  datatype Result<T> = Success(value: T) | Failure(error: Error) {
    predicate IsFailure() {
      Failure?
    }

    function PropagateFailure<U>(): Result<U>
      requires Failure?
    {
      Failure(error)
    }

    function Extract(): T
      requires Success?
    {
      value
    }
  }
}
