/** The rows of the embedded provider catalog. */
module Rows {
  datatype RegionRow = RegionRow(
    macroRegion: string, country: string, regionName: string,
    cspRegion: string, description: string, csp: string)

  datatype VMRow = VMRow(
    name: string, family: string, csp: string, cspRegion: string, architecture: string,
    cpu: int, ram: int, gpu: string, autoscale: bool)

  datatype OSImageRow = OSImageRow(
    csp: string, cspRegion: string, osName: string, osVersion: string, architecture: string, image: string)

  datatype MDBRow = MDBRow(
    name: string, family: string, csp: string, cspRegion: string, engine: string, cpu: int, ram: int)
}
