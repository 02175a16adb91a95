/**
 * How one call to a durable backend (DynamoDB, SSM) ends: it succeeds,
 * raises botocore's `ClientError`, or raises some other exception. The
 * stores pick their fallback tier by this outcome.
 */
module Outcomes {
  datatype Outcome = Succeeded | ClientError | OtherError
}
