/** The warnings the server attaches to a score. The source builds
    human-readable (Russian) messages; each message is modelled by the
    constructor that names its cause, with the values interpolated into it. */
module Reasons {

  datatype Reason =
    | IpHost                          // host is an IP address
    | AtSign                          // '@' somewhere in the URL
    | SuspiciousZone(tld: string)     // host ends with a suspicious zone
    | ManySubdomains                  // more than three dots in the host
    | Homoglyph(target: string)       // Cyrillic look-alikes spelling a whitelisted host
    | Typosquat(target: string, dist: nat)  // near miss of a whitelisted host
    | PasswordUnderPressure           // password field with urgency or money words
    | PasswordForm                    // password field alone
    | ScamText                        // urgency and money words without a password field
}
