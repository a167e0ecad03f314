/** The errors the data layer hands back to the handlers. */
module DbErrors {

  datatype DbError =
    | ErrRecordNotFound  // data.ErrRecordNotFound: no row matched
    | ErrNoRows          // sql.ErrNoRows passed through unmapped (an UPDATE that matched no row)
    | ErrDatabase        // any other failure: connection, timeout, rejected query
}
