/** A NULL in page.cc (a null address or NULL_BLOCK_ID) becomes an Option. */
module Options {

  datatype Option<+T> = None | Some(value: T)

}
