/** Outcomes shared by the cache layer and the page extractors.
    The scraper signals failure by raising; here every such raise is an `Err`. */
module Errors {

  datatype Option<T> = None | Some(value: T)

  /** Why a call of the scraper raises. */
  datatype Error =
    | RequestFailed                 // requests.get raised (no connection, bad URL, ...)
    | BodyNotJson                   // response.json() raised on a body that is not JSON
    | NotMarkup                     // a cached JSON payload was handed to the HTML parser
    | MissingElement(name: string)  // a markup query found nothing (None.text, None['href'], ...)
    | MissingLine                   // `split('\n')[1]` on a text with fewer than two lines

  datatype Result<T> = Ok(value: T) | Err(error: Error)
}
