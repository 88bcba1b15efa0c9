/** Which components run as a managed service and which are self-hosted on a VM. */
module Mitigation {
  import opened Text

  function MitigationType(typ: string): string {
    Lower(TrimSpace(typ))
  }

  /** The component types with a VM-hosted substitute. */
  const SELF_HOSTED: set<string> := {
    "cache", "managed-database", "managed-queue", "message-queue", "secrets-manager", "object-storage",
    "blob-storage", "event-streaming", "event-bus", "kms", "encryption-key", "monitoring", "synthetics",
    "uptime-check", "waf-service", "waf", "serverless-function", "managed-kubernetes", "container-service",
    "load-balancer", "cdn-service", "cdn", "email-service", "email", "vm-volume", "block-storage" }

  predicate Mitigatable(typ: string) {
    MitigationType(typ) in SELF_HOSTED
  }

  /** placement = "vm" is a choice for the two stateful data services only. */
  predicate ExplicitVMPlacement(typ: string) {
    MitigationType(typ) == "managed-database" || MitigationType(typ) == "cache"
  }

  const BIG_THREE: set<string> := {"aws", "gcp", "digitalocean"}

  /** The providers with a managed service for a type; none for a type without an entry. */
  function NativeProviders(typ: string): set<string> {
    if typ == "managed-database" then
      BIG_THREE + {"azure", "linode", "ubicloud", "oracle", "ibm", "alicloud", "ovh", "stackit",
                   "tencent", "vultr", "scaleway", "huawei"}
    else if typ == "cache" then BIG_THREE + {"azure", "oracle", "ibm", "alicloud"}
    else if typ == "object-storage" || typ == "blob-storage" then
      BIG_THREE + {"azure", "linode", "oracle", "ibm", "alicloud", "ovh", "stackit"}
    else if typ == "secrets-manager" then BIG_THREE + {"azure", "oracle", "ibm", "alicloud", "stackit"}
    else if typ == "managed-queue" || typ == "message-queue" then BIG_THREE + {"azure", "oracle", "alicloud"}
    else if typ == "event-streaming" || typ == "event-bus" then BIG_THREE + {"azure", "oracle", "ibm", "alicloud"}
    else if typ == "kms" || typ == "encryption-key" then BIG_THREE
    else if typ == "monitoring" || typ == "synthetics" || typ == "uptime-check" then BIG_THREE
    else if typ == "waf-service" || typ == "waf" then BIG_THREE + {"azure", "oracle", "ibm", "alicloud", "linode"}
    else if typ == "serverless-function" then BIG_THREE + {"azure", "oracle", "ibm", "alicloud"}
    else if typ == "managed-kubernetes" || typ == "container-service" then
      BIG_THREE + {"azure", "linode", "oracle", "ibm", "alicloud", "ovh", "stackit"}
    else if typ == "load-balancer" then BIG_THREE + {"azure", "linode", "oracle", "ibm", "alicloud", "stackit"}
    else if typ == "cdn-service" || typ == "cdn" then BIG_THREE + {"azure", "alicloud", "cloudflare"}
    else if typ == "email-service" || typ == "email" then {"aws", "digitalocean"}
    else if typ == "vm-volume" || typ == "block-storage" then BIG_THREE
    else {}
  }

  predicate NativelySupported(typ: string, provider: string) {
    !Mitigatable(typ) || Lower(provider) in NativeProviders(MitigationType(typ))
  }

  /** The raw components DigitalOcean routes to the Vault operator. */
  predicate VaultHAAliasable(typ: string, provider: string) {
    MitigationType(typ) in {"secrets-manager", "kms", "encryption-key"} && MitigationType(provider) == "digitalocean"
  }

  /** The alias arms are reachable: an aliasable component on DigitalOcean is never
      substituted by the single-VM fallback first. */
  lemma {:induction false} AliasesAreNotMitigated(typ: string, provider: string)
    requires VaultHAAliasable(typ, provider) && Lower(provider) == "digitalocean"
    ensures NativelySupported(typ, provider)
  {
  }
}
