/** The error taxonomy of the patients service, one constructor per kind of
    rejection the HTTP layer reports. */
module Errors {

  datatype Error =
    /** The request body violates field constraints; names every offending field. */
    | Invalid(fields: set<string>)
    /** A stored record, merged with an accepted update, fails revalidation;
        names every offending field. The service answers with a server error. */
    | Revalidation(fields: set<string>)
    /** No patient is stored under the requested id. */
    | NotFound
    /** A patient with the requested id already exists. */
    | Conflict
    /** A query parameter (`sort_by` or `order`) has an unsupported value. */
    | BadArgument(param: string)
}
