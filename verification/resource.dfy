/**
 * The published state envelope: a status, optional data and an optional error. The class itself
 * is not part of this model; its shape follows from its uses: the factories `Resource.loading`,
 * `success` and `error` (here `Loading`, `Success` and `Failed`) and the fields `status`, `data`
 * and `error.message`. Resources compare structurally.
 */
module Resources {
  import opened Wrappers

  datatype Status = LOADING | SUCCESS | ERROR

  /** The code and message carried by an error state. */
  datatype Error = Error(code: int, message: string)

  datatype Resource<T> = Resource(status: Status, data: Option<T>, error: Option<Error>)
  {
    static function Loading(data: Option<T>): (r: Resource<T>)
      ensures r.status == LOADING && r.data == data && r.error.None?
    {
      Resource(LOADING, data, None)
    }

    static function Success(data: Option<T>): (r: Resource<T>)
      ensures r.status == SUCCESS && r.data == data && r.error.None?
    {
      Resource(SUCCESS, data, None)
    }

    static function Failed(data: Option<T>, e: Error): (r: Resource<T>)
      ensures r.status == ERROR && r.data == data && r.error == Some(e)
    {
      Resource(ERROR, data, Some(e))
    }
  }
}
