/** Failure-carrying result types shared by the models. */
module Wrappers {

  datatype Option<+T> = None | Some(value: T)

  /** `Err` stands for any error the original propagates with `?`. */
  datatype Result<+T> = Ok(value: T) | Err

}
