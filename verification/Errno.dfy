/** The error numbers the sources return, negated. */
module Errno {
  const ENOMEM := 12
  const EACCES := 13
  const EBUSY := 16
  const EINVAL := 22
  const ENOSPC := 28
  const EBADMSG := 74
}
