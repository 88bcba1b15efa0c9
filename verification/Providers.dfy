/** The cloud providers: their catalog tokens and their Terraform provider sources. */
module Providers {
  import opened Wrappers
  import opened Text

  const PROVIDER_TO_CSP: map<string, string> := map[
    "aws" := "aws", "gcp" := "gcp", "digitalocean" := "do", "azure" := "azure", "linode" := "linode",
    "ubicloud" := "ubicloud", "oracle" := "oci", "ibm" := "ibm", "alicloud" := "alicloud", "ovh" := "ovh",
    "stackit" := "stackit", "tencent" := "tencent", "hetzner" := "hetzner", "vultr" := "vultr",
    "scaleway" := "scaleway", "rackspace" := "rackspace", "cloudflare" := "cloudflare", "huawei" := "huawei",
    "akamai" := "akamai", "fastly" := "fastly", "vsphere" := "vsphere"]

  function ProviderToCSP(provider: string): Option<string> {
    var p := Lower(TrimSpace(provider));
    if p in PROVIDER_TO_CSP then Some(PROVIDER_TO_CSP[p]) else None
  }

  const CLOUDFLARE := ("cloudflare", "cloudflare/cloudflare")

  /** The local name and registry source of a cloud provider. */
  function CloudSource(provider: string): Option<(string, string)> {
    if provider == "aws" then Some(("aws", "hashicorp/aws"))
    else if provider == "gcp" then Some(("google", "hashicorp/google"))
    else if provider == "digitalocean" then Some(("digitalocean", "digitalocean/digitalocean"))
    else if provider == "azure" then Some(("azurerm", "hashicorp/azurerm"))
    else if provider == "linode" then Some(("linode", "linode/linode"))
    else if provider == "ubicloud" then Some(("ubicloud", "ubicloud/ubicloud"))
    else if provider == "oracle" then Some(("oci", "oracle/oci"))
    else if provider == "ibm" then Some(("ibm", "IBM-Cloud/ibm"))
    else if provider == "alicloud" then Some(("alicloud", "aliyun/alicloud"))
    else if provider == "ovh" then Some(("ovh", "ovh/ovh"))
    else if provider == "stackit" then Some(("stackit", "stackitcloud/stackit"))
    else if provider == "tencent" then Some(("tencentcloud", "tencentstack/tencentcloud"))
    else if provider == "hetzner" then Some(("hcloud", "hetznercloud/hcloud"))
    else if provider == "vultr" then Some(("vultr", "vultr/vultr"))
    else if provider == "scaleway" then Some(("scaleway", "scaleway/scaleway"))
    else if provider == "rackspace" then Some(("openstack", "terraform-provider-openstack/openstack"))
    else if provider == "cloudflare" then Some(CLOUDFLARE)
    else if provider == "huawei" then Some(("huaweicloud", "huaweicloud/huaweicloud"))
    else if provider == "akamai" then Some(("akamai", "akamai/akamai"))
    else if provider == "fastly" then Some(("fastly", "fastly/fastly"))
    else if provider == "vsphere" then Some(("vsphere", "hashicorp/vsphere"))
    else None
  }

  /** No two providers share a catalog token. */
  lemma {:induction false} TokensDistinct(p: string, q: string)
    requires ProviderToCSP(p).Some? && ProviderToCSP(p) == ProviderToCSP(q)
    ensures EqualFold(TrimSpace(p), TrimSpace(q))
  {
    var a, b := Lower(TrimSpace(p)), Lower(TrimSpace(q));
    TokenTells(a);
    TokenTells(b);
  }

  /** A token is its provider's name but for two. */
  lemma {:induction false} TokenTells(p: string)
    requires p in PROVIDER_TO_CSP
    ensures PROVIDER_TO_CSP[p] ==
            if p == "digitalocean" then "do" else if p == "oracle" then "oci" else p
    ensures p !in ["do", "oci"]
  {
  }
}
