/** Types that several layers share. */
module Types {
  datatype Option<+T> = None | Some(value: T)

  /** err_t */
  datatype Err = OK | MEM | BUF | RTE | INPROGRESS | VAL | WOULDBLOCK | USE | ALREADY | ISCONN
               | CONN | ABRT | RST | CLSD | ARG
}
