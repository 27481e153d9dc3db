/** Shared result types: the exceptions the forest code raises become values. */
module Base {

  datatype Option<+T> = None | Some(value: T)

  /** The Python exceptions raised by the modelled code, one constructor per raise site. */
  datatype Error =
      /** ValueError from url2tuple: the URL carries a fragment (or, when strict, a query). */
    | InvalidUrl(url: string)
      /** BadRequest from split_path_info: a '..' climbs above the root. */
    | PathEscapesRoot(path: string)
      /** KeyError from TupleMap.add: the key already holds a value. */
    | DuplicateKey(key: seq<string>)
      /** KeyError from TupleMap.__getitem__: no exact value for the key. */
    | MissingKey(key: seq<string>)
      /** UnboundLocalError from TupleMap.get: empty key while the root holds a value. */
    | UnboundIndex
      /** ValueError from Rewrite.prepare: the rewrite path does not traverse. */
    | InvalidRewritePath(rewrite: string)
      /** ValueError from VirtualHost.prepare: two rewrites share an external key. */
    | DuplicateUrlEntry(original: string, hostUrl: string)
      /** ValueError from VirtualHost.prepare: two rewrites share an internal path. */
    | DuplicatePathEntry(rewrite: string, hostUrl: string)
      /** ValueError from ForestService.set_hosts: an origin key is used twice. */
    | DoubleHostEntry(url: string)
      /** ValueError from ForestService.import_csv: a row without exactly five fields. */
    | InvalidOptionCount(line: nat)
      /** ValueError from ForestService.activate. */
    | AlreadyActivated
      /** ValueError from ForestService.deactivate: the root is not marked. */
    | NotActivated
      /** ValueError from ForestService.deactivate: the root is marked for another site. */
    | ActivatedByAnother
      /** AttributeError from the delattr in ForestService.deactivate. */
    | MissingSilvaAttribute
      /** BadRequest from VirtualHosting.__call__: no rule of the host matches. */
    | NotInVirtualHost
      /** BadRequest from ForestURL.url: no rule of the host covers the content. */
    | NoVirtualHostFor(content: seq<string>)
      /** TypeError: a rule that was never prepared has no URL to extend. */
    | UnpreparedRule

  datatype Result<+T> = Ok(value: T) | Err(error: Error) {
    predicate IsFailure() { Err? }

    function PropagateFailure<U>(): Result<U>
      requires Err?
    {
      Err(error)
    }

    function Extract(): T
      requires Ok?
    {
      value
    }
  }
}
