/** Optional values, used wherever the launchers test whether something was given or found. */
module Maybe {

  datatype Option<+T> = None | Some(value: T)
}
